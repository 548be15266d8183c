/**
  The operating system as the tool sees it: disks and processes that other
  programs keep changing.  A run gives the state at every instant, and every
  system call happens at some later instant of its own, so any number of
  foreign changes fit between two calls.
 */
module Kernel {
  import opened Basics

  /** Device and inode number; what `fileIdentity` prints. */
  type Id = nat

  datatype Kind = Directory | Regular | Symlink | Special

  datatype Inode = Inode(kind: Kind, table: map<string, Id>, content: seq<Byte>,
                         size: int64, modified: int, token: int)

  type Disk = map<Id, Inode>

  /** The part of a stat result that change detection compares. */
  datatype FileState = FileState(size: int64, modified: int, token: int, identity: Id)

  datatype FileInfo = FileInfo(kind: Kind, state: FileState)

  function StateOf(id: Id, node: Inode): FileState {
    FileState(node.size, node.modified, node.token, id)
  }

  /** The process half of an instant: programs with an image, so no kernel threads. */
  datatype Process = Process(birth: string, owner: int, image: Id, imagePath: string)

  type Processes = map<int, Process>

  ghost predicate WellFormed(disk: Disk) {
    forall id {:trigger disk[id]} | id in disk ::
      && (disk[id].kind.Regular? ==> disk[id].size as int == |disk[id].content|)
      && (disk[id].kind.Directory? ==>
            forall name | name in disk[id].table :: EntryName(name) && disk[id].table[name] in disk)
  }

  ghost predicate WellFormedAt(run: nat -> Disk, t: nat) {
    WellFormed(run(t))
  }

  ghost predicate Shows(run: nat -> Disk, t: nat, state: FileState) {
    state.identity in run(t) && StateOf(state.identity, run(t)[state.identity]) == state
  }

  /** The inode present after the instant `t` is the one from before, untouched. */
  ghost predicate Untouched(run: nat -> Disk, t: nat, id: Id)
    requires id in run(t + 1)
  {
    id in run(t) && run(t)[id] == run(t + 1)[id]
  }

  /** A mutation: a state the identity never showed before.  A live inode keeps its kind. */
  ghost predicate Renewed(run: nat -> Disk, t: nat, id: Id)
    requires id in run(t + 1)
  {
    && (id in run(t) ==> run(t)[id].kind == run(t + 1)[id].kind)
    && var latest := StateOf(id, run(t + 1)[id]);
       forall s: nat | s <= t :: !Shows(run, s, latest)
  }

  /**
    The assumption behind every before/after comparison: whoever changes an
    inode, or reuses its number, leaves a (size, mtime, change token, identity)
    tuple that was never seen before.  Nothing else about the environment is assumed.
   */
  ghost predicate LawfulDisks(run: nat -> Disk) {
    && (forall t: nat :: WellFormedAt(run, t))
    && (forall t: nat, id | id in run(t + 1) :: Untouched(run, t, id) || Renewed(run, t, id))
  }

  /** The inode exists and is the same at every instant of the interval. */
  ghost predicate Steady(run: nat -> Disk, id: Id, first: nat, last: nat) {
    forall t: nat {:trigger run(t)} | first <= t <= last ::
      id in run(t) && id in run(first) && run(t)[id] == run(first)[id]
  }

  /** Nothing changes on the disk. */
  ghost predicate Frozen(run: nat -> Disk, first: nat, last: nat) {
    forall t: nat {:trigger run(t)} | first <= t <= last :: run(t) == run(first)
  }

  /** Equal states at two instants pin the inode at every instant between them. */
  lemma {:induction false} EqualStatesPin(run: nat -> Disk, state: FileState, first: nat, last: nat)
    requires LawfulDisks(run) && first <= last
    requires Shows(run, first, state) && Shows(run, last, state)
    ensures Steady(run, state.identity, first, last)
    decreases last
  {
    var id := state.identity;
    if first < last {
      var t: nat := last - 1;
      assert id in run(t + 1);
      assert !Renewed(run, t, id);
      assert Untouched(run, t, id);
      EqualStatesPin(run, state, first, t);
      assert run(last)[id] == run(t)[id] == run(first)[id];
      forall k: nat | first <= k <= last ensures id in run(k) && run(k)[id] == run(first)[id] {
        if k <= t { } else { assert k == last; }
      }
    }
  }

  /** An inode that never disappears never changes its kind. */
  lemma {:induction false} KindIsStable(run: nat -> Disk, id: Id, first: nat, last: nat)
    requires LawfulDisks(run) && first <= last
    requires forall t: nat {:trigger run(t)} | first <= t <= last :: id in run(t)
    ensures run(first)[id].kind == run(last)[id].kind
    decreases last
  {
    if first < last {
      var t: nat := last - 1;
      assert id in run(t + 1);
      KindIsStable(run, id, first, t);
      assert Untouched(run, t, id) || Renewed(run, t, id);
    }
  }

  /** A process that ended, or whose PID was taken over, never comes back with the same birth. */
  ghost predicate LawfulProcesses(run: nat -> Processes) {
    forall t: nat, pid, birth | Born(run, t + 1, pid, birth) :: Born(run, t, pid, birth) || NewBirth(run, t, pid, birth)
  }

  ghost predicate NewBirth(run: nat -> Processes, t: nat, pid: int, birth: string) {
    forall s: nat | s <= t :: !Born(run, s, pid, birth)
  }

  ghost predicate Born(run: nat -> Processes, t: nat, pid: int, birth: string) {
    pid in run(t) && run(t)[pid].birth == birth
  }

  /** One identity seen twice was alive all along. */
  lemma {:induction false} SameBirthLives(run: nat -> Processes, pid: int, birth: string, first: nat, last: nat)
    requires LawfulProcesses(run) && first <= last
    requires Born(run, first, pid, birth) && Born(run, last, pid, birth)
    ensures forall t: nat | first <= t <= last :: Born(run, t, pid, birth)
    decreases last
  {
    if first < last {
      var t: nat := last - 1;
      assert Born(run, t + 1, pid, birth) && !NewBirth(run, t, pid, birth);
      SameBirthLives(run, pid, birth, first, t);
    }
  }

  /** No process starts, ends or changes. */
  ghost predicate Still(run: nat -> Processes, first: nat, last: nat) {
    forall t: nat {:trigger run(t)} | first <= t <= last :: run(t) == run(first)
  }

  datatype Opened = Handle(id: Id) | LinkRejected | OpenFailed

  /** What `openat` with O_NOFOLLOW finds; opening through a non-directory reports ENOTDIR. */
  ghost function Lookup(disk: Disk, directory: Id, name: string): Opened {
    if directory !in disk then OpenFailed
    else if !disk[directory].kind.Directory? then LinkRejected
    else if name !in disk[directory].table || disk[directory].table[name] !in disk then OpenFailed
    else if disk[disk[directory].table[name]].kind.Symlink? then LinkRejected
    else Handle(disk[directory].table[name])
  }

  /** The same with O_DIRECTORY, which refuses everything else. */
  ghost function LookupDirectory(disk: Disk, directory: Id, name: string): Opened {
    match Lookup(disk, directory, name)
    case Handle(id) => if id in disk && disk[id].kind.Directory? then Handle(id) else LinkRejected
    case other => other
  }

  ghost predicate ListsExactly(names: seq<string>, table: map<string, Id>) {
    && (forall i, j | 0 <= i < j < |names| :: names[i] != names[j])
    && (forall name :: name in names <==> name in table)
  }

  datatype ReadResult = Chunk(bytes: seq<Byte>) | EndOfFile | ReadFailed

  class World {
    const disks: nat -> Disk
    const processes: nat -> Processes
    /** The instant of the latest system call. */
    var now: nat
    /** File descriptors the tool may still open. */
    var free: nat
    /** I/O errors, denials, cancellations and expired deadlines so far. */
    var faults: nat
    /** What the reads have returned, in order. */
    ghost var chunks: seq<seq<Byte>>

    constructor (disks: nat -> Disk, processes: nat -> Processes, free: nat)
      ensures this.disks == disks && this.processes == processes
      ensures this.now == 0 && this.free == free && this.faults == 0
    {
      this.disks, this.processes := disks, processes;
      this.now, this.free, this.faults, this.chunks := 0, free, 0, [];
    }

    /** Others run for a while. */
    method Elapse()
      modifies this`now
      ensures now >= old(now)
    {
      var later: nat :| later >= now;
      now := later;
    }

    method OpenChild(directory: Id, name: string) returns (r: Opened)
      modifies this
      ensures now >= old(now) && faults >= old(faults) && chunks == old(chunks)
      ensures r.Handle? ==> Lookup(disks(now), directory, name) == r && old(free) > 0 && free == old(free) - 1
      ensures !r.Handle? ==> free == old(free)
      ensures r != Lookup(disks(now), directory, name) ==> faults > old(faults)
    {
      Elapse();
      var disk := disks(now);
      if * {
        faults := faults + 1;
        r := OpenFailed;
        return;
      }
      if directory !in disk {
        r := OpenFailed;
      } else if !disk[directory].kind.Directory? {
        r := LinkRejected;
      } else if name !in disk[directory].table || disk[directory].table[name] !in disk {
        r := OpenFailed;
      } else if disk[disk[directory].table[name]].kind.Symlink? {
        r := LinkRejected;
      } else if free == 0 {
        faults := faults + 1;
        r := OpenFailed;
      } else {
        free := free - 1;
        r := Handle(disk[directory].table[name]);
      }
    }

    method OpenDirectory(directory: Id, name: string) returns (r: Opened)
      modifies this
      ensures now >= old(now) && faults >= old(faults) && chunks == old(chunks)
      ensures r.Handle? ==> LookupDirectory(disks(now), directory, name) == r && old(free) > 0 && free == old(free) - 1
      ensures !r.Handle? ==> free == old(free)
      ensures r != LookupDirectory(disks(now), directory, name) ==> faults > old(faults)
    {
      r := OpenChild(directory, name);
      if r.Handle? && !disks(now)[r.id].kind.Directory? {
        free := free + 1;
        r := LinkRejected;
      }
    }

    /** A second descriptor for an open handle. */
    method Duplicate() returns (r: bool)
      modifies this
      ensures now >= old(now) && faults >= old(faults) && chunks == old(chunks)
      ensures free == if r then old(free) - 1 else old(free)
      ensures !r ==> faults > old(faults)
    {
      Elapse();
      if free == 0 {
        faults := faults + 1;
        r := false;
      } else {
        free := free - 1;
        r := true;
      }
    }

    method Close()
      modifies this`free
      ensures free == old(free) + 1
    {
      free := free + 1;
    }

    method Stat(handle: Id) returns (r: Option<FileInfo>)
      modifies this
      ensures now >= old(now) && faults >= old(faults) && chunks == old(chunks) && free == old(free)
      ensures r.Some? ==> handle in disks(now) &&
                          r.value == FileInfo(disks(now)[handle].kind, StateOf(handle, disks(now)[handle]))
      ensures r.None? ==> handle !in disks(now) || faults > old(faults)
    {
      Elapse();
      var disk := disks(now);
      if handle !in disk {
        r := None;
      } else if * {
        faults := faults + 1;
        r := None;
      } else {
        r := Some(FileInfo(disk[handle].kind, StateOf(handle, disk[handle])));
      }
    }

    /** Reading a directory takes time; only an undisturbed read is exact.  Any order may come back. */
    method ReadDir(handle: Id) returns (r: Option<seq<string>>)
      modifies this
      ensures now >= old(now) && faults >= old(faults) && chunks == old(chunks) && free == old(free)
      ensures r.Some? && Steady(disks, handle, old(now), now) ==>
                disks(now)[handle].kind.Directory? && ListsExactly(r.value, disks(now)[handle].table)
      ensures r.None? ==> faults > old(faults) || handle !in disks(now) || !disks(now)[handle].kind.Directory?
    {
      ghost var began := now;
      Elapse();
      var disk := disks(now);
      if handle !in disk || !disk[handle].kind.Directory? {
        r := None;
      } else if * {
        faults := faults + 1;
        r := None;
      } else {
        var rest, names := disk[handle].table.Keys, [];
        while rest != {}
          invariant rest <= disk[handle].table.Keys
          invariant forall i, j | 0 <= i < j < |names| :: names[i] != names[j]
          invariant forall name :: name in names <==> name in disk[handle].table.Keys - rest
        {
          var name :| name in rest;
          assert name !in names;
          rest, names := rest - {name}, names + [name];
        }
        r := Some(names);
      }
    }

    /**
      Reads at most 64 KiB at an offset, cutting the file wherever the kernel
      likes.  Only an undisturbed read is exact.
     */
    method Read(handle: Id, offset: nat) returns (r: ReadResult)
      modifies this
      ensures now >= old(now) && faults >= old(faults) && free == old(free)
      ensures r.Chunk? ==> 0 < |r.bytes| <= 0x1_0000 && chunks == old(chunks) + [r.bytes]
      ensures !r.Chunk? ==> chunks == old(chunks)
      ensures Steady(disks, handle, old(now), now) ==> match r
                case Chunk(bytes) => bytes <= disks(now)[handle].content[Min(offset, |disks(now)[handle].content|)..]
                case EndOfFile => offset >= |disks(now)[handle].content|
                case ReadFailed => faults > old(faults)
    {
      Elapse();
      var disk := disks(now);
      if handle !in disk {
        r := EndOfFile;
      } else if * {
        faults := faults + 1;
        r := ReadFailed;
      } else if offset >= |disk[handle].content| {
        r := EndOfFile;
      } else {
        assert 0 < 1 <= 0x1_0000 && offset + 1 <= |disk[handle].content|;
        var count: nat :| 0 < count <= 0x1_0000 && offset + count <= |disk[handle].content|;
        r := Chunk(disk[handle].content[offset..offset + count]);
        chunks := chunks + [r.bytes];
      }
    }
  }
}
