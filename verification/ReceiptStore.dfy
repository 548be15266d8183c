/**
  Publication of receipts by any number of writers that may stop dead anywhere
  (`WriteReceipt` in internal/store/receipt.go), as steps on one directory.
 */
module ReceiptStore {
  import opened ArtifactIdentity
  import opened Basics
  import opened ContentIdentity
  import opened Json
  import opened Selection

  const MAXIMUM_STORED_BYTES := 0x10_0000

  datatype Receipt = Receipt(id: string, fields: map<string, Value>)

  /** `json.Marshal` of a receipt, and the library. */
  datatype Setting = Setting(lib: Library, marshal: Receipt -> seq<Byte>)

  /** What `Validate` lets through, with an identifier that makes a file name. */
  ghost predicate Storable(g: Setting, r: Receipt) {
    Accepted(g.lib, r.id, r.fields) && |Digest(r)| == 64 && |g.marshal(r)| <= MAXIMUM_STORED_BYTES
  }

  /** The identifier without its prefix, which names the target file. */
  function Digest(r: Receipt): string {
    if ID_PREFIX <= r.id then r.id[|ID_PREFIX|..] else r.id
  }

  datatype Phase =
    | Validated | Writing | Synced | Linked | Exists | Publishing
    | Returned | Failing | Failed | Dead

  /** A call; its temporary name, once it has one, and the inode behind it carry the same number. */
  datatype Writer = Writer(receipt: Receipt, phase: Phase, temporary: Option<int>)

  function Temporaries(writer: Writer): set<int> {
    if writer.temporary.Some? then {writer.temporary.value} else {}
  }

  /** The directory: published names, temporary names, and the bytes behind them. */
  datatype State = State(targets: map<string, int>, temporaries: set<int>, inodes: map<int, seq<Byte>>,
                         writers: map<int, Writer>)

  const EMPTY := State(map[], {}, map[], map[])

  datatype Action =
    | Begin(w: int, r: Receipt) | CreateTemporary(w: int, n: int) | WriteSome(w: int, k: int) | Sync(w: int)
    | Link(w: int) | SyncDirectory(w: int) | CompareExisting(w: int) | Remove(w: int)
    | Fail(w: int) | CleanUp(w: int, removed: bool) | Crash(w: int)

  function Moved(s: State, w: int, phase: Phase): State
    requires w in s.writers
  {
    s.(writers := s.writers[w := s.writers[w].(phase := phase)])
  }

  predicate Running(phase: Phase) {
    !phase.Returned? && !phase.Failed? && !phase.Dead?
  }

  /** One system call of one writer, or its end. */
  ghost predicate Step(g: Setting, s: State, a: Action, t: State) {
    if a.Begin? then
      a.w !in s.writers && Storable(g, a.r) &&
      t == s.(writers := s.writers[a.w := Writer(a.r, Validated, None)])
    else
      a.w in s.writers &&
      var writer := s.writers[a.w];
      match a
      // `os.CreateTemp`: a name nobody uses
      case CreateTemporary(w, number) => writer.phase.Validated? && number !in s.inodes && number !in s.temporaries &&
        t == s.(temporaries := s.temporaries + {number}, inodes := s.inodes[number := []],
                writers := s.writers[w := Writer(writer.receipt, Writing, Some(number))])
      // the next bytes, however many the kernel takes
      case WriteSome(w, k) =>
        writer.phase.Writing? && writer.temporary.Some? && writer.temporary.value in s.inodes &&
        var encoded := g.marshal(writer.receipt); var n := writer.temporary.value;
        |s.inodes[n]| < k <= |encoded| && t == s.(inodes := s.inodes[n := encoded[..k]])
      case Sync(w) => writer.phase.Writing? && writer.temporary.Some? && writer.temporary.value in s.inodes &&
        |s.inodes[writer.temporary.value]| == |g.marshal(writer.receipt)| &&
        t == Moved(s, w, Synced)
      // `os.Link` never replaces a name
      case Link(w) => writer.phase.Synced? && writer.temporary.Some? && writer.temporary.value in s.temporaries &&
        if Digest(writer.receipt) in s.targets then t == Moved(s, w, Exists)
        else t == Moved(s, w, Linked).(targets := s.targets[Digest(writer.receipt) := writer.temporary.value])
      case SyncDirectory(w) => writer.phase.Linked? && t == Moved(s, w, Publishing)
      case CompareExisting(w) => writer.phase.Exists? && Digest(writer.receipt) in s.targets &&
        s.targets[Digest(writer.receipt)] in s.inodes &&
        t == Moved(s, w, if Agrees(g, s, w) then Publishing else Failing)
      case Remove(w) => writer.phase.Publishing? &&
        t == Moved(s, w, Returned).(temporaries := s.temporaries - Temporaries(writer))
      // any error
      case Fail(w) => Running(writer.phase) && !writer.phase.Failing? && t == Moved(s, w, Failing)
      // the deferred removal, which may fail too; before `os.CreateTemp` there is nothing to remove
      case CleanUp(w, removed) => writer.phase.Failing? &&
        t == Moved(s, w, Failed).(temporaries := if removed then s.temporaries - Temporaries(writer) else s.temporaries)
      case Crash(w) => Running(writer.phase) && t == Moved(s, w, Dead)
  }

  /** The bytes already published under this identifier are the caller's. */
  ghost predicate Agrees(g: Setting, s: State, w: int)
    requires w in s.writers
  {
    var digest := Digest(s.writers[w].receipt);
    digest in s.targets && s.targets[digest] in s.inodes &&
      s.inodes[s.targets[digest]] == g.marshal(s.writers[w].receipt)
  }

  ghost predicate Run(g: Setting, states: seq<State>, actions: seq<Action>) {
    && |states| == |actions| + 1 && states[0] == EMPTY
    && forall i | 0 <= i < |actions| :: Step(g, states[i], actions[i], states[i + 1])
  }

  // ----- What every run keeps --------------------------------------------------------------------

  predicate HasTemporary(phase: Phase) {
    phase.Writing? || phase.Synced? || phase.Linked? || phase.Exists? || phase.Publishing?
  }

  /** What a writer's own temporary file holds. */
  ghost predicate OwnFile(g: Setting, s: State, w: int)
    requires w in s.writers
  {
    var writer := s.writers[w];
    Storable(g, writer.receipt) &&
    (HasTemporary(writer.phase) ==>
       && writer.temporary.Some? && var n := writer.temporary.value;
       && n in s.temporaries && n in s.inodes && s.inodes[n] <= g.marshal(writer.receipt)
       && (!writer.phase.Writing? ==> s.inodes[n] == g.marshal(writer.receipt))
       // nobody else writes to it, and while it is being written it is not published
       && (forall v | v in s.writers && v != w && HasTemporary(s.writers[v].phase) :: s.writers[v].temporary != Some(n))
       && (writer.phase.Writing? || writer.phase.Synced? ==> forall d | d in s.targets :: s.targets[d] != n))
  }

  /** No two calls ever share a temporary name, not even one that has ended. */
  ghost predicate Apart(s: State) {
    && (forall w | w in s.writers && s.writers[w].temporary.Some? :: s.writers[w].temporary.value in s.inodes)
    && (forall v, w | v in s.writers && w in s.writers && v != w && s.writers[v].temporary.Some? ::
          s.writers[v].temporary != s.writers[w].temporary)
  }

  lemma {:induction false} ApartKeeps(g: Setting, s: State, a: Action, t: State)
    requires Apart(s) && Step(g, s, a, t)
    ensures Apart(t)
  {
    hide Storable, Agrees;
  }

  /** A published name holds one complete encoding of a receipt with that identifier. */
  ghost predicate Genuine(g: Setting, s: State, digest: string)
    requires digest in s.targets
  {
    s.targets[digest] in s.inodes && exists r ::
      Storable(g, r) && Digest(r) == digest && s.inodes[s.targets[digest]] == g.marshal(r)
  }

  /** A writer past publication has its own bytes under its name. */
  ghost predicate Published(g: Setting, s: State, w: int)
    requires w in s.writers
  {
    var phase := s.writers[w].phase;
    phase.Linked? || phase.Publishing? || phase.Returned? ==> Agrees(g, s, w)
  }

  ghost predicate Inv(g: Setting, s: State) {
    && (forall w | w in s.writers :: OwnFile(g, s, w) && Published(g, s, w))
    && (forall d | d in s.targets :: Genuine(g, s, d))
    && (forall w | w in s.writers && s.writers[w].phase.Returned? ::
          s.writers[w].temporary.Some? && s.writers[w].temporary.value !in s.temporaries)
    && (forall n | n in s.temporaries :: n in s.inodes)
    && Apart(s)
  }

  /** Same identifier, same receipt, same bytes: the conflict cannot arise. */
  lemma {:induction false} NoConflict(g: Setting, s: State, w: int)
    requires InjectiveHash(g.lib.sha256) && Inv(g, s) && w in s.writers && Digest(s.writers[w].receipt) in s.targets
    ensures Agrees(g, s, w)
  {
    var mine := s.writers[w].receipt;
    var digest := Digest(mine);
    assert OwnFile(g, s, w) && Genuine(g, s, digest);
    var r :| Storable(g, r) && Digest(r) == digest && s.inodes[s.targets[digest]] == g.marshal(r);
    assert mine.id == ID_PREFIX + digest == r.id;
    EqualIdsEqualFields(g.lib, mine.id, mine.fields, r.fields);
  }

  /** Only the phase of one writer, and perhaps its temporary name, changed. */
  lemma {:induction false} PhaseKeeps(g: Setting, s: State, w: int, phase: Phase, temporaries: set<int>)
    requires Inv(g, s) && w in s.writers && temporaries <= s.temporaries
    requires s.temporaries - Temporaries(s.writers[w]) <= temporaries
    requires HasTemporary(phase) ==> temporaries == s.temporaries
    requires HasTemporary(phase) ==> HasTemporary(s.writers[w].phase) && !phase.Writing? && !s.writers[w].phase.Writing?
    requires phase.Synced? ==> s.writers[w].phase.Synced?
    requires phase.Linked? || phase.Publishing? || phase.Returned? ==> Agrees(g, s, w)
    requires phase.Returned? ==> s.writers[w].temporary.Some? && s.writers[w].temporary.value !in temporaries
    ensures Inv(g, Moved(s, w, phase).(temporaries := temporaries))
  {
    hide OwnFile, Published, Genuine, Storable, Agrees;
    var t := Moved(s, w, phase).(temporaries := temporaries);
    forall v | v in t.writers ensures OwnFile(g, t, v) && Published(g, t, v) {
      PhaseKeepsWriter(g, s, w, phase, temporaries, v);
    }
    forall d | d in t.targets ensures Genuine(g, t, d) {
      GenuineIsThere(g, s, d);
      GenuineStays(g, s, t, d);
    }
  }

  lemma {:induction false} PhaseKeepsWriter(g: Setting, s: State, w: int, phase: Phase, temporaries: set<int>, v: int)
    requires w in s.writers && v in s.writers && OwnFile(g, s, v) && Published(g, s, v) && Apart(s)
    requires s.temporaries - Temporaries(s.writers[w]) <= temporaries
    requires HasTemporary(phase) ==> temporaries == s.temporaries
    requires HasTemporary(phase) ==> HasTemporary(s.writers[w].phase) && !phase.Writing? && !s.writers[w].phase.Writing?
    requires phase.Synced? ==> s.writers[w].phase.Synced?
    requires phase.Linked? || phase.Publishing? || phase.Returned? ==> Agrees(g, s, w)
    ensures var t := Moved(s, w, phase).(temporaries := temporaries);
            OwnFile(g, t, v) && Published(g, t, v)
  {
  }

  /** What is published stays genuine if its bytes stay. */
  lemma {:induction false} TargetsKeep(g: Setting, s: State, t: State)
    requires (forall d | d in s.targets :: Genuine(g, s, d)) && t.targets == s.targets
    requires forall d | d in s.targets && s.targets[d] in s.inodes ::
               s.targets[d] in t.inodes && t.inodes[s.targets[d]] == s.inodes[s.targets[d]]
    ensures forall d | d in t.targets :: Genuine(g, t, d)
  {
    hide Genuine;
    forall d | d in t.targets ensures Genuine(g, t, d) {
      GenuineIsThere(g, s, d);
      GenuineStays(g, s, t, d);
    }
  }

  lemma {:induction false} SyncKeeps(g: Setting, s: State, w: int, t: State)
    requires Inv(g, s) && Step(g, s, Action.Sync(w), t)
    ensures Inv(g, t)
  {
    hide OwnFile, Published, Genuine, Storable, Apart;
    ApartKeeps(g, s, Action.Sync(w), t);
    forall v | v in t.writers ensures OwnFile(g, t, v) && Published(g, t, v) {
      SyncKeepsWriter(g, s, w, t, v);
    }
    TargetsKeep(g, s, t);
  }

  lemma {:induction false} SyncKeepsWriter(g: Setting, s: State, w: int, t: State, v: int)
    requires Step(g, s, Action.Sync(w), t) && v in s.writers && OwnFile(g, s, v) && Published(g, s, v)
    ensures OwnFile(g, t, v) && Published(g, t, v)
  {
  }

  lemma {:induction false} BeginKeeps(g: Setting, s: State, w: int, r: Receipt, t: State)
    requires Inv(g, s) && Step(g, s, Begin(w, r), t)
    ensures Inv(g, t)
  {
    hide OwnFile, Published, Genuine, Storable, Apart;
    ApartKeeps(g, s, Begin(w, r), t);
    forall v | v in t.writers ensures OwnFile(g, t, v) && Published(g, t, v) {
      BeginKeepsWriter(g, s, w, r, t, v);
    }
    TargetsKeep(g, s, t);
  }

  lemma {:induction false} BeginKeepsWriter(g: Setting, s: State, w: int, r: Receipt, t: State, v: int)
    requires Step(g, s, Begin(w, r), t) && v in t.writers
    requires v in s.writers ==> OwnFile(g, s, v) && Published(g, s, v)
    ensures OwnFile(g, t, v) && Published(g, t, v)
  {
  }

  /** A fresh number is nobody's temporary file and published nowhere. */
  lemma {:induction false} FreshIsUnused(g: Setting, s: State, n: int)
    requires Inv(g, s) && n !in s.inodes
    ensures forall v | v in s.writers :: s.writers[v].temporary != Some(n)
    ensures forall d | d in s.targets :: s.targets[d] != n && s.targets[d] in s.inodes
  {
    forall d | d in s.targets ensures s.targets[d] != n && s.targets[d] in s.inodes {
      assert Genuine(g, s, d);
    }
  }

  lemma {:induction false} CreateKeeps(g: Setting, s: State, w: int, n: int, t: State)
    requires Inv(g, s) && Step(g, s, CreateTemporary(w, n), t)
    ensures Inv(g, t)
  {
    hide OwnFile, Published, Genuine, Storable, Apart;
    ApartKeeps(g, s, CreateTemporary(w, n), t);
    FreshIsUnused(g, s, n);
    forall v | v in t.writers ensures OwnFile(g, t, v) && Published(g, t, v) {
      CreateKeepsWriter(g, s, w, n, t, v);
    }
    TargetsKeep(g, s, t);
  }

  lemma GenuineStays(g: Setting, s: State, t: State, d: string)
    requires d in s.targets && Genuine(g, s, d) && d in t.targets && t.targets[d] == s.targets[d]
    requires s.targets[d] in t.inodes && (s.targets[d] in s.inodes ==> t.inodes[s.targets[d]] == s.inodes[s.targets[d]])
    ensures Genuine(g, t, d)
  {
  }

  lemma {:induction false} CreateKeepsWriter(g: Setting, s: State, w: int, n: int, t: State, v: int)
    requires Step(g, s, CreateTemporary(w, n), t) && v in s.writers && OwnFile(g, s, v) && Published(g, s, v)
    requires forall u | u in s.writers :: s.writers[u].temporary != Some(n)
    requires forall d | d in s.targets :: s.targets[d] != n
    ensures OwnFile(g, t, v) && Published(g, t, v)
  {
  }

  lemma {:induction false} WriteKeeps(g: Setting, s: State, w: int, k: int, t: State)
    requires Inv(g, s) && Step(g, s, WriteSome(w, k), t)
    ensures Inv(g, t)
  {
    hide OwnFile, Published, Genuine, Storable, Apart;
    ApartKeeps(g, s, WriteSome(w, k), t);
    NotYetPublished(g, s, w);
    forall v | v in t.writers ensures OwnFile(g, t, v) && Published(g, t, v) {
      WriteKeepsWriter(g, s, w, k, t, v);
    }
    TargetsKeep(g, s, t);
  }

  lemma NotYetPublished(g: Setting, s: State, w: int)
    requires w in s.writers && OwnFile(g, s, w) && s.writers[w].phase.Writing?
    ensures s.writers[w].temporary.Some? && forall d | d in s.targets :: s.targets[d] != s.writers[w].temporary.value
  {
  }

  lemma {:induction false} WriteKeepsWriter(g: Setting, s: State, w: int, k: int, t: State, v: int)
    requires Step(g, s, WriteSome(w, k), t) && v in s.writers && OwnFile(g, s, v) && Published(g, s, v)
    requires OwnFile(g, s, w)
    ensures OwnFile(g, t, v) && Published(g, t, v)
  {
  }

  lemma {:induction false} LinkKeeps(g: Setting, s: State, w: int, t: State)
    requires Inv(g, s) && Step(g, s, Action.Link(w), t) && Digest(s.writers[w].receipt) !in s.targets
    ensures Inv(g, t)
  {
    hide OwnFile, Published, Genuine, Storable, Agrees, Apart;
    ApartKeeps(g, s, Action.Link(w), t);
    LinkIsGenuine(g, s, w, t);
    forall v | v in t.writers ensures OwnFile(g, t, v) && Published(g, t, v) {
      LinkKeepsWriter(g, s, w, t, v);
    }
    forall d | d in t.targets ensures Genuine(g, t, d) {
      if d in s.targets {
        GenuineIsThere(g, s, d);
        GenuineStays(g, s, t, d);
      }
    }
  }

  lemma {:induction false} LinkIsGenuine(g: Setting, s: State, w: int, t: State)
    requires w in s.writers && OwnFile(g, s, w) && Step(g, s, Action.Link(w), t) &&
             Digest(s.writers[w].receipt) !in s.targets
    ensures Digest(s.writers[w].receipt) in t.targets && Genuine(g, t, Digest(s.writers[w].receipt))
  {
  }

  lemma {:induction false} LinkKeepsWriter(g: Setting, s: State, w: int, t: State, v: int)
    requires Step(g, s, Action.Link(w), t) && Digest(s.writers[w].receipt) !in s.targets
    requires v in s.writers && OwnFile(g, s, v) && Published(g, s, v) && OwnFile(g, s, w)
    ensures OwnFile(g, t, v) && Published(g, t, v)
  {
  }

  lemma {:induction false} StepKeeps(g: Setting, s: State, a: Action, t: State)
    requires InjectiveHash(g.lib.sha256) && Inv(g, s) && Step(g, s, a, t)
    ensures Inv(g, t)
  {
    hide Inv, Agrees, OwnFile, Published, Genuine;
    match a {
      case Begin(w, r) => BeginKeeps(g, s, w, r, t);
      case CreateTemporary(w, n) => CreateKeeps(g, s, w, n, t);
      case WriteSome(w, k) => WriteKeeps(g, s, w, k, t);
      case Sync(w) => SyncKeeps(g, s, w, t);
      case Link(w) =>
        if Digest(s.writers[w].receipt) in s.targets {
          PhaseKeeps(g, s, w, Exists, s.temporaries);
        } else {
          LinkKeeps(g, s, w, t);
        }
      case SyncDirectory(w) =>
        PublishedAgrees(g, s, w);
        PhaseKeeps(g, s, w, Publishing, s.temporaries);
      case CompareExisting(w) =>
        NoConflict(g, s, w);
        PhaseKeeps(g, s, w, Publishing, s.temporaries);
      case Remove(w) =>
        PublishedAgrees(g, s, w);
        PhaseKeeps(g, s, w, Returned, s.temporaries - Temporaries(s.writers[w]));
      case Fail(w) => PhaseKeeps(g, s, w, Failing, s.temporaries);
      case CleanUp(w, removed) => PhaseKeeps(g, s, w, Failed, t.temporaries);
      case Crash(w) => PhaseKeeps(g, s, w, Dead, s.temporaries);
    }
  }

  lemma PublishedAgrees(g: Setting, s: State, w: int)
    requires Inv(g, s) && w in s.writers
    ensures s.writers[w].phase.Linked? || s.writers[w].phase.Publishing? || s.writers[w].phase.Returned? ==>
              Agrees(g, s, w) && s.writers[w].temporary.Some? && s.writers[w].temporary.value in s.inodes
  {
    assert Published(g, s, w) && OwnFile(g, s, w);
  }

  lemma {:induction false} RunKeeps(g: Setting, states: seq<State>, actions: seq<Action>, i: nat)
    requires InjectiveHash(g.lib.sha256) && Run(g, states, actions) && i < |states|
    ensures Inv(g, states[i])
  {
    if i > 0 {
      RunKeeps(g, states, actions, i - 1);
      assert Step(g, states[i - 1], actions[i - 1], states[i]);
      StepKeeps(g, states[i - 1], actions[i - 1], states[i]);
    }
  }

  // ----- The store ----------------------------------------------------------------------------------

  /** From its creation until it is removed, a temporary file keeps its name, whatever the others clean up. */
  lemma {:induction false} TemporaryStays(g: Setting, states: seq<State>, actions: seq<Action>, i: nat, w: int)
    requires InjectiveHash(g.lib.sha256) && Run(g, states, actions) && i < |states|
    requires w in states[i].writers && HasTemporary(states[i].writers[w].phase)
    ensures states[i].writers[w].temporary.Some? && states[i].writers[w].temporary.value in states[i].temporaries
    ensures forall v | v in states[i].writers && v != w ::
              states[i].writers[v].temporary != states[i].writers[w].temporary
  {
    RunKeeps(g, states, actions, i);
    assert OwnFile(g, states[i], w);
  }

  /** A published name always holds one complete encoding of a receipt with that identifier. */
  lemma {:induction false} PublishedIsComplete(g: Setting, states: seq<State>, actions: seq<Action>, i: nat,
                                               digest: string)
    requires InjectiveHash(g.lib.sha256) && Run(g, states, actions) && i < |states| && digest in states[i].targets
    ensures Genuine(g, states[i], digest)
  {
    RunKeeps(g, states, actions, i);
  }

  lemma {:induction false} StepLeavesPublished(g: Setting, s: State, a: Action, t: State, digest: string)
    requires Inv(g, s) && Step(g, s, a, t) && digest in s.targets
    ensures digest in t.targets && t.targets[digest] == s.targets[digest]
    ensures s.targets[digest] in s.inodes && s.targets[digest] in t.inodes &&
            t.inodes[s.targets[digest]] == s.inodes[s.targets[digest]]
  {
    assert Genuine(g, s, digest);
    if a.WriteSome? {
      assert OwnFile(g, s, a.w);
    }
  }

  /** Its bytes never change afterwards. */
  lemma {:induction false} PublishedNeverChanges(g: Setting, states: seq<State>, actions: seq<Action>, i: nat, j: nat,
                                                 digest: string)
    requires InjectiveHash(g.lib.sha256) && Run(g, states, actions) && i <= j < |states| && digest in states[i].targets
    ensures digest in states[j].targets && states[j].targets[digest] == states[i].targets[digest]
    ensures var n := states[i].targets[digest];
            n in states[i].inodes && n in states[j].inodes && states[j].inodes[n] == states[i].inodes[n]
    decreases j
  {
    hide Run, Step, Inv, Genuine;
    if i == j {
      PublishedIsComplete(g, states, actions, i, digest);
      GenuineIsThere(g, states[i], digest);
    } else {
      PublishedNeverChanges(g, states, actions, i, j - 1, digest);
      RunKeeps(g, states, actions, j - 1);
      RunSteps(g, states, actions, j - 1);
      StepLeavesPublished(g, states[j - 1], actions[j - 1], states[j], digest);
    }
  }

  lemma GenuineIsThere(g: Setting, s: State, digest: string)
    requires digest in s.targets && Genuine(g, s, digest)
    ensures s.targets[digest] in s.inodes
  {
  }

  lemma RunSteps(g: Setting, states: seq<State>, actions: seq<Action>, i: nat)
    requires Run(g, states, actions) && i + 1 < |states|
    ensures |states| == |actions| + 1 && Step(g, states[i], actions[i], states[i + 1])
  {
  }

  /** A call that returned its path has the target hold the caller's bytes, and its temporary file is gone. */
  lemma {:induction false} ReturnedIsStored(g: Setting, states: seq<State>, actions: seq<Action>, i: nat, w: int)
    requires InjectiveHash(g.lib.sha256) && Run(g, states, actions) && i < |states|
    requires w in states[i].writers && states[i].writers[w].phase.Returned?
    ensures Agrees(g, states[i], w) && states[i].writers[w].temporary.Some? &&
            states[i].writers[w].temporary.value !in states[i].temporaries
  {
    RunKeeps(g, states, actions, i);
    PublishedAgrees(g, states[i], w);
  }

  /** No call ever finds a published receipt that conflicts with its own. */
  lemma {:induction false} ConflictUnreachable(g: Setting, states: seq<State>, actions: seq<Action>, i: nat, w: int)
    requires InjectiveHash(g.lib.sha256) && Run(g, states, actions) && i < |actions| && actions[i] == CompareExisting(w)
    ensures w in states[i].writers && Agrees(g, states[i], w) && states[i + 1].writers[w].phase == Publishing
  {
    RunKeeps(g, states, actions, i);
    assert Step(g, states[i], actions[i], states[i + 1]);
    NoConflict(g, states[i], w);
  }
}
