/**
  What a finished walk guarantees about instants it has not seen yet: as long
  as every recorded state still shows, the tree is exactly what was recorded.
 */
module WalkPromise {
  import opened Basics
  import opened Kernel
  import opened Selection
  import opened TreeSpec

  ghost predicate AllShow(run: nat -> Disk, t: nat, pins: seq<Pinned>) {
    forall p | p in pins :: Shows(run, t, p.state)
  }

  ghost predicate SeenBy(run: nat -> Disk, first: nat, now: nat, state: FileState) {
    exists t: nat :: first <= t <= now && Shows(run, t, state)
  }

  /** Every record is an observation made between the two instants. */
  ghost predicate Observed(run: nat -> Disk, first: nat, now: nat, pins: seq<Pinned>) {
    forall p | p in pins :: SeenBy(run, first, now, p.state)
  }

  /** The fixed parameters of one walk. */
  datatype Survey = Survey(run: nat -> Disk, root: Id, lib: Library, selector: Selector)

  /** The instants a walk of `directory`, begun at `since` and over by `upto`, speaks about. */
  ghost predicate Undisturbed(s: Survey, raw: Path, directory: Id, since: nat, upto: nat, pins: seq<Pinned>, t: nat) {
    && t >= upto && Steady(s.run, directory, since, t)
    && Resolve(s.run(t), s.root, raw) == Some(directory) && AllShow(s.run, t, pins)
  }

  ghost predicate Delivers(s: Survey, raw: Path, directory: Id, names: set<string>, since: nat, upto: nat,
                           origins: seq<Origin>, entries: seq<TreeEntry>, pins: seq<Pinned>) {
    forall t: nat | Undisturbed(s, raw, directory, since, upto, pins, t) ::
      Covered(s.run(t), s.root, s.lib, s.selector, raw, names, origins, entries, pins)
  }

  ghost predicate DeliversAll(s: Survey, raw: Path, directory: Id, since: nat, upto: nat, origins: seq<Origin>,
                              entries: seq<TreeEntry>, pins: seq<Pinned>) {
    forall t: nat | Undisturbed(s, raw, directory, since, upto, pins, t) ::
      && directory in s.run(t) && s.run(t)[directory].kind.Directory?
      && Covered(s.run(t), s.root, s.lib, s.selector, raw, s.run(t)[directory].table.Keys, origins, entries, pins)
  }

  lemma DeliversNothing(s: Survey, raw: Path, directory: Id, since: nat, upto: nat)
    ensures Delivers(s, raw, directory, {}, since, upto, [], [], [])
  {
  }

  lemma {:induction false} DeliversUnion(s: Survey, raw: Path, directory: Id, since: nat, a: set<string>, upto: nat,
                                         o: seq<Origin>, e: seq<TreeEntry>, p: seq<Pinned>, b: set<string>, upto': nat,
                                         o': seq<Origin>, e': seq<TreeEntry>, p': seq<Pinned>)
    requires upto <= upto'
    requires Delivers(s, raw, directory, a, since, upto, o, e, p)
    requires Delivers(s, raw, directory, b, since, upto', o', e', p')
    ensures Delivers(s, raw, directory, a + b, since, upto', o + o', e + e', p + p')
  {
    forall t: nat | Undisturbed(s, raw, directory, since, upto', p + p', t)
      ensures Covered(s.run(t), s.root, s.lib, s.selector, raw, a + b, o + o', e + e', p + p')
    {
      assert forall x | x in p :: x in p + p';
      assert forall x | x in p' :: x in p + p';
      assert Undisturbed(s, raw, directory, since, upto, p, t);
      assert Undisturbed(s, raw, directory, since, upto', p', t);
      CoverUnion(s.run(t), s.root, s.lib, s.selector, raw, a, o, e, p, b, o', e', p');
    }
  }

  /** A name looked up in a directory that stays as it was still leads to the same inode. */
  lemma {:induction false} ChildStays(s: Survey, raw: Path, directory: Id, name: string, child: Id, since: nat,
                                      entered: nat, t: nat)
    requires LawfulDisks(s.run) && since <= entered <= t
    requires Lookup(s.run(entered), directory, name) == Handle(child)
    requires Steady(s.run, directory, since, t) && Resolve(s.run(t), s.root, raw) == Some(directory)
    ensures forall k: nat {:trigger s.run(k)} | entered <= k <= t :: child in s.run(k)
    ensures Resolve(s.run(t), s.root, raw + [name]) == Some(child)
  {
    assert s.run(entered)[directory] == s.run(since)[directory];
    forall k: nat {:trigger s.run(k)} | entered <= k <= t ensures child in s.run(k) {
      assert s.run(k)[directory] == s.run(since)[directory];
      assert WellFormedAt(s.run, k);
    }
    assert s.run(t)[directory] == s.run(since)[directory] && child in s.run(t);
    ResolveStep(s.run(t), s.root, raw, directory, name);
  }

  lemma {:induction false} DeliversDirectory(s: Survey, raw: Path, directory: Id, name: string, child: Id,
                                             state: FileState, since: nat, entered: nat, shown: nat, began: nat,
                                             upto: nat, o: seq<Origin>, e: seq<TreeEntry>, p: seq<Pinned>)
    requires LawfulDisks(s.run) && since <= entered <= shown <= began <= upto
    requires Lookup(s.run(entered), directory, name) == Handle(child)
    requires Shows(s.run, shown, state) && state.identity == child
    requires DeliversAll(s, raw + [name], child, began, upto, o, e, p)
    ensures Delivers(s, raw, directory, {name}, since, upto, o, e, [Pinned(Normal(s.lib, raw + [name]), state)] + p)
  {
    var p' := [Pinned(Normal(s.lib, raw + [name]), state)] + p;
    forall t: nat | Undisturbed(s, raw, directory, since, upto, p', t)
      ensures Covered(s.run(t), s.root, s.lib, s.selector, raw, {name}, o, e, p')
    {
      ChildStays(s, raw, directory, name, child, since, entered, t);
      assert p'[0] in p';
      EqualStatesPin(s.run, state, shown, t);
      assert s.run(began)[child] == s.run(shown)[child];
      assert Steady(s.run, child, began, t);
      assert forall x | x in p :: x in p';
      assert Undisturbed(s, raw + [name], child, began, upto, p, t);
      assert WellFormedAt(s.run, t);
      CoverDirectory(s.run(t), s.root, s.lib, s.selector, raw, name, child, o, e, p);
    }
  }

  lemma {:induction false} DeliversFile(s: Survey, raw: Path, directory: Id, name: string, child: Id, node: Inode,
                                        since: nat, entered: nat, shown: nat, upto: nat)
    requires LawfulDisks(s.run) && since <= entered <= shown <= upto
    requires Lookup(s.run(entered), directory, name) == Handle(child)
    requires child in s.run(shown) && s.run(shown)[child] == node && node.kind.Regular?
    requires Selected(s.lib, s.selector, Normal(s.lib, raw + [name]))
    ensures Delivers(s, raw, directory, {name}, since, upto, [Origin(raw + [name], child)],
                     [EntryFor(s.lib, raw + [name], node)], [Pinned(Normal(s.lib, raw + [name]), StateOf(child, node))])
  {
    var p := [Pinned(Normal(s.lib, raw + [name]), StateOf(child, node))];
    forall t: nat | Undisturbed(s, raw, directory, since, upto, p, t)
      ensures Covered(s.run(t), s.root, s.lib, s.selector, raw, {name}, [Origin(raw + [name], child)],
                      [EntryFor(s.lib, raw + [name], node)], p)
    {
      ChildStays(s, raw, directory, name, child, since, entered, t);
      assert p[0] in p;
      EqualStatesPin(s.run, StateOf(child, node), shown, t);
      assert s.run(t)[child] == node;
      CoverFile(s.run(t), s.root, s.lib, s.selector, raw, name, child);
    }
  }

  lemma {:induction false} DeliversIgnored(s: Survey, raw: Path, directory: Id, name: string, child: Id, since: nat,
                                           entered: nat, shown: nat, upto: nat)
    requires LawfulDisks(s.run) && since <= entered <= shown <= upto
    requires Lookup(s.run(entered), directory, name) == Handle(child)
    requires child in s.run(shown) && s.run(shown)[child].kind.Regular?
    requires !Selected(s.lib, s.selector, Normal(s.lib, raw + [name]))
    ensures Delivers(s, raw, directory, {name}, since, upto, [], [], [])
  {
    forall t: nat | Undisturbed(s, raw, directory, since, upto, [], t)
      ensures Covered(s.run(t), s.root, s.lib, s.selector, raw, {name}, [], [], [])
    {
      ChildStays(s, raw, directory, name, child, since, entered, t);
      assert child in s.run(t);
      KindIsStable(s.run, child, shown, t);
      CoverFile(s.run(t), s.root, s.lib, s.selector, raw, name, child);
    }
  }

  /** The listing was exact, so its names are all the names there are. */
  lemma {:induction false} DeliversListing(s: Survey, raw: Path, directory: Id, names: seq<string>, since: nat,
                                           listing: nat, listed: nat, upto: nat, o: seq<Origin>, e: seq<TreeEntry>,
                                           p: seq<Pinned>)
    requires since <= listing <= listed <= upto
    requires Steady(s.run, directory, listing, listed) ==>
               s.run(listed)[directory].kind.Directory? && ListsExactly(names, s.run(listed)[directory].table)
    requires Delivers(s, raw, directory, (set n | n in names), since, upto, o, e, p)
    ensures DeliversAll(s, raw, directory, since, upto, o, e, p)
  {
    forall t: nat | Undisturbed(s, raw, directory, since, upto, p, t)
      ensures directory in s.run(t) && s.run(t)[directory].kind.Directory?
      ensures Covered(s.run(t), s.root, s.lib, s.selector, raw, s.run(t)[directory].table.Keys, o, e, p)
    {
      assert s.run(listing)[directory] == s.run(since)[directory];
      assert Steady(s.run, directory, listing, listed);
      assert s.run(listed)[directory] == s.run(since)[directory] == s.run(t)[directory];
      assert s.run(t)[directory].table.Keys == set n | n in names;
    }
  }

  /** Records that show again later were showing at every instant in between. */
  lemma {:induction false} ShownAgain(run: nat -> Disk, state: FileState, middle: nat, later: nat)
    requires LawfulDisks(run) && SeenBy(run, 0, middle, state) && middle <= later && Shows(run, later, state)
    ensures Shows(run, middle, state)
  {
    var t: nat :| 0 <= t <= middle && Shows(run, t, state);
    EqualStatesPin(run, state, t, later);
    assert run(middle)[state.identity] == run(t)[state.identity];
  }
}
