/**
  That storing a receipt gets done, and what may always go wrong with it
  (`WriteReceipt` in internal/store/receipt.go).
 */
module ReceiptProgress {
  import opened ArtifactIdentity
  import opened Basics
  import opened Canonical
  import opened ContentIdentity
  import opened Json
  import opened ReceiptStore
  import Utf8

  // ----- What a published name stands for ------------------------------------------------------

  /** The receipt with these fields whose identifier ends in the name. */
  ghost predicate StoredAs(g: Setting, digest: string, bytes: seq<Byte>, fields: map<string, Value>) {
    && Printable(Obj(fields)) && digest == g.lib.sha256(Utf8.Encode(Print(Obj(fields))))
    && bytes == g.marshal(Receipt("sha256:" + digest, fields))
  }

  /** A published name is the 64 characters of the hash of some fields, and the bytes are those of their receipt. */
  lemma {:induction false} PublishedName(g: Setting, states: seq<State>, actions: seq<Action>, i: nat, digest: string)
    requires InjectiveHash(g.lib.sha256) && Run(g, states, actions) && i < |states| && digest in states[i].targets
    ensures |digest| == 64 && states[i].targets[digest] in states[i].inodes
    ensures |states[i].inodes[states[i].targets[digest]]| <= 1048576
    ensures exists fields :: StoredAs(g, digest, states[i].inodes[states[i].targets[digest]], fields)
  {
    hide Run;
    PublishedIsComplete(g, states, actions, i, digest);
    var bytes := states[i].inodes[states[i].targets[digest]];
    var r :| Storable(g, r) && ReceiptStore.Digest(r) == digest && bytes == g.marshal(r);
    assert r.id == ID_PREFIX + digest && r == Receipt(ID_PREFIX + digest, r.fields);
    assert StoredAs(g, digest, bytes, r.fields);
  }

  // ----- A call gets done -------------------------------------------------------------------------

  /** What a call found to exist is still there. */
  ghost predicate Found(s: State) {
    forall w | w in s.writers && s.writers[w].phase.Exists? :: Digest(s.writers[w].receipt) in s.targets
  }

  lemma {:induction false} FoundStays(g: Setting, states: seq<State>, actions: seq<Action>, i: nat)
    requires InjectiveHash(g.lib.sha256) && Run(g, states, actions) && i < |states|
    ensures Inv(g, states[i]) && Found(states[i])
  {
    hide Inv, Run;
    RunKeeps(g, states, actions, i);
    if i > 0 {
      FoundStays(g, states, actions, i - 1);
      RunSteps(g, states, actions, i - 1);
      forall d | d in states[i - 1].targets ensures d in states[i].targets {
        StepLeavesPublished(g, states[i - 1], actions[i - 1], states[i], d);
      }
      StepFinds(g, states[i - 1], actions[i - 1], states[i]);
    } else {
      StartsEmpty(g, states, actions);
    }
  }

  lemma StartsEmpty(g: Setting, states: seq<State>, actions: seq<Action>)
    requires Run(g, states, actions)
    ensures states[0] == EMPTY
  {
  }

  lemma RunLength(g: Setting, states: seq<State>, actions: seq<Action>)
    requires Run(g, states, actions)
    ensures |states| == |actions| + 1
  {
  }

  lemma StepFinds(g: Setting, s: State, a: Action, t: State)
    requires Found(s) && Step(g, s, a, t) && forall d | d in s.targets :: d in t.targets
    ensures Found(t)
  {
    hide Storable, Agrees;
  }

  /** How many steps of its own a call has before it at most, failing and dying included. */
  function StepsLeft(g: Setting, s: State, w: int): nat
    requires w in s.writers
  {
    match s.writers[w].phase
    case Validated => |g.marshal(s.writers[w].receipt)| + 7
    case Writing =>
      var n, size := s.writers[w].temporary, |g.marshal(s.writers[w].receipt)|;
      if n.Some? && n.value in s.inodes && |s.inodes[n.value]| <= size then size - |s.inodes[n.value]| + 6 else size + 6
    case Synced => 5
    case Linked => 3
    case Exists => 3
    case Publishing => 2
    case Failing => 1
    case _ => 0
  }

  /** Its own steps bring a call closer to its end, and nobody else's take it further away. */
  lemma {:induction false} StepsDecrease(g: Setting, s: State, a: Action, t: State, w: int)
    requires InjectiveHash(g.lib.sha256) && Inv(g, s) && Step(g, s, a, t) && w in s.writers
    ensures w in t.writers && t.writers[w].receipt == s.writers[w].receipt
    ensures StepsLeft(g, t, w) + (if a.w == w then 1 else 0) <= StepsLeft(g, s, w)
    ensures !a.Fail? && !a.CleanUp? && !a.Crash? ==>
              (Doomed(t.writers[w].phase) <==> Doomed(s.writers[w].phase))
  {
    hide Agrees, Published, Genuine, Storable;
    assert OwnFile(g, s, w);
    if a.CompareExisting? {
      NoConflict(g, s, a.w);
    }
    if a.WriteSome? {
      assert OwnFile(g, s, a.w);
    }
  }

  predicate Doomed(phase: Phase) {
    phase.Failing? || phase.Failed? || phase.Dead?
  }

  function OwnSteps(actions: seq<Action>, w: int): nat {
    if actions == [] then 0
    else OwnSteps(actions[..|actions| - 1], w) + if actions[|actions| - 1].w == w then 1 else 0
  }

  /**
    In every run of any number of calls, each takes a bounded number of steps of its own,
    whatever the others do meanwhile.
   */
  lemma {:induction false} StepsAreBounded(g: Setting, states: seq<State>, actions: seq<Action>, i: nat, j: nat, w: int)
    requires InjectiveHash(g.lib.sha256) && Run(g, states, actions) && i <= j < |states| && w in states[i].writers
    ensures w in states[j].writers
    ensures OwnSteps(actions[i..j], w) + StepsLeft(g, states[j], w) <= StepsLeft(g, states[i], w)
    decreases j
  {
    hide Inv, Run, Step, StepsLeft;
    RunLength(g, states, actions);
    if i == j {
      assert actions[i..j] == [];
    } else {
      StepsAreBounded(g, states, actions, i, j - 1, w);
      RunKeeps(g, states, actions, j - 1);
      RunSteps(g, states, actions, j - 1);
      StepsDecrease(g, states[j - 1], actions[j - 1], states[j], w);
      assert actions[i..j][..j - 1 - i] == actions[i..j - 1] && actions[i..j][j - 1 - i] == actions[j - 1];
    }
  }

  /** A step of this call that is neither a failure nor its death. */
  ghost predicate OwnStep(g: Setting, s: State, w: int, a: Action, t: State) {
    a.w == w && !a.Begin? && !a.Fail? && !a.Crash? && Step(g, s, a, t)
  }

  /** A call can always go on until it has returned, or has cleaned up after a failure. */
  lemma {:induction false} NeverStuck(g: Setting, states: seq<State>, actions: seq<Action>, i: nat, w: int)
    requires InjectiveHash(g.lib.sha256) && Run(g, states, actions) && i < |states| && w in states[i].writers
    ensures (exists a: Action, t :: OwnStep(g, states[i], w, a, t)) <==>
            states[i].writers[w].phase !in {Returned, Failed, Phase.Dead}
  {
    hide Inv, Run, Found;
    FoundStays(g, states, actions, i);
    if Running(states[i].writers[w].phase) {
      var a, t := NextStep(g, states[i], w);
    }
  }

  lemma {:induction false} NextStep(g: Setting, s: State, w: int) returns (a: Action, t: State)
    requires InjectiveHash(g.lib.sha256) && Inv(g, s) && Found(s) && w in s.writers && Running(s.writers[w].phase)
    ensures OwnStep(g, s, w, a, t)
  {
    hide Agrees, Published, Genuine, Apart, Storable;
    var writer := s.writers[w];
    assert OwnFile(g, s, w);
    match writer.phase {
      case Validated =>
        var n := FreshNumber(s.inodes.Keys + s.temporaries);
        a, t := CreateTemporary(w, n), s.(temporaries := s.temporaries + {n}, inodes := s.inodes[n := []],
                                         writers := s.writers[w := Writer(writer.receipt, Writing, Some(n))]);
      case Writing =>
        var n, size := writer.temporary.value, |g.marshal(writer.receipt)|;
        if |s.inodes[n]| == size {
          a, t := Action.Sync(w), Moved(s, w, Synced);
        } else {
          a, t := WriteSome(w, size), s.(inodes := s.inodes[n := g.marshal(writer.receipt)[..size]]);
        }
      case Synced =>
        a := Action.Link(w);
        t := if Digest(writer.receipt) in s.targets then Moved(s, w, Exists)
             else Moved(s, w, Linked).(targets := s.targets[Digest(writer.receipt) := writer.temporary.value]);
      case Linked =>
        a, t := SyncDirectory(w), Moved(s, w, Publishing);
      case Exists =>
        GenuineThere(g, s, Digest(writer.receipt));
        a, t := CompareExisting(w), Moved(s, w, if Agrees(g, s, w) then Publishing else Failing);
      case Publishing =>
        a, t := Remove(w), Moved(s, w, Returned).(temporaries := s.temporaries - Temporaries(writer));
      case Failing =>
        a, t := CleanUp(w, true), Moved(s, w, Failed).(temporaries := s.temporaries - Temporaries(writer));
    }
  }

  lemma GenuineThere(g: Setting, s: State, digest: string)
    requires Inv(g, s) && digest in s.targets
    ensures s.targets[digest] in s.inodes
  {
    assert Genuine(g, s, digest);
  }

  /** The numbers in use are finitely many. */
  lemma {:induction false} FreshNumber(used: set<int>) returns (n: int)
    ensures forall m | m in used :: m < n
  {
    EmptyOrNot(used);
    if used == {} {
      n := 0;
    } else {
      var m :| m in used;
      n := FreshNumber(used - {m});
      n := if m < n then n else m + 1;
      forall k | k in used ensures k < n {
        assert k == m || k in used - {m};
      }
    }
  }

  // ----- What may always happen ---------------------------------------------------------------------

  /** In any state a new call may begin, and a running one may write any part more, fail or die. */
  lemma {:induction false} AnythingMayHappen(g: Setting, s: State, w: int)
    ensures w !in s.writers ==> forall r | Storable(g, r) ::
              exists a: Action, t :: a.w == w && Step(g, s, a, t) &&
                                     t == s.(writers := s.writers[w := Writer(r, Validated, None)])
    ensures w in s.writers && Running(s.writers[w].phase) ==>
              exists a: Action, t :: a.w == w && Step(g, s, a, t) && OnlyPhase(s, t, w, Phase.Dead)
    ensures w in s.writers && Running(s.writers[w].phase) && !s.writers[w].phase.Failing? ==>
              exists a: Action, t :: a.w == w && Step(g, s, a, t) && OnlyPhase(s, t, w, Failing)
  {
    hide Storable, Agrees;
    if w !in s.writers {
      forall r | Storable(g, r)
        ensures exists a: Action, t :: a.w == w && Step(g, s, a, t) &&
                                       t == s.(writers := s.writers[w := Writer(r, Validated, None)])
      {
        assert Step(g, s, Begin(w, r), s.(writers := s.writers[w := Writer(r, Validated, None)]));
      }
    } else if Running(s.writers[w].phase) {
      assert Step(g, s, Action.Crash(w), Moved(s, w, Phase.Dead));
      if !s.writers[w].phase.Failing? {
        assert Step(g, s, Action.Fail(w), Moved(s, w, Failing));
      }
    }
  }

  predicate OnlyPhase(s: State, t: State, w: int, phase: Phase)
    requires w in s.writers
  {
    t == s.(writers := s.writers[w := Writer(s.writers[w].receipt, phase, s.writers[w].temporary)])
  }

  /** A write may stop after any number of bytes. */
  lemma {:induction false} WriteMayStopAnywhere(g: Setting, s: State, w: int, n: int, k: nat)
    requires w in s.writers && s.writers[w].phase.Writing? && s.writers[w].temporary == Some(n) && n in s.inodes
    requires |s.inodes[n]| < k <= |g.marshal(s.writers[w].receipt)|
    ensures exists a: Action, t :: a.w == w && Step(g, s, a, t) && n in t.inodes &&
                                   t.inodes[n] == g.marshal(s.writers[w].receipt)[..k]
  {
    var t := s.(inodes := s.inodes[n := g.marshal(s.writers[w].receipt)[..k]]);
    assert Step(g, s, WriteSome(w, k), t);
  }

  /** A call that failed may leave its temporary file behind, and one that cleans up removes no other. */
  lemma {:induction false} CleaningUp(g: Setting, s: State, a: Action, t: State)
    requires Step(g, s, a, t) && (a.CleanUp? || a.Remove?)
    ensures a.w in s.writers && s.temporaries - t.temporaries <= Temporaries(s.writers[a.w])
    ensures a.Remove? || (a.CleanUp? && a.removed) ==> t.temporaries == s.temporaries - Temporaries(s.writers[a.w])
    ensures t.inodes == s.inodes && t.targets == s.targets
  {
  }
}
