/** What every serial run of storage commands keeps, and what each command achieves. */
module StorageTreeProofs {
  import opened Outcomes
  import opened StorageTree

  // ---------------------------------------------------------------------------------
  // Subtrees
  // ---------------------------------------------------------------------------------

  lemma SubtreeHasRoot(m: Entries, a: Id)
    requires a in m
    ensures a in Subtree(m, a)
  {
    assert Up(m, a, 0) == Some(a);
  }

  /** Membership passes between a row and its parent, except at the top. */
  lemma SubtreeStep(m: Entries, a: Id, x: Id)
    requires x in m && x != a
    ensures x in Subtree(m, a) <==> m[x].parent.Some? && Below(m, m[x].parent.value, a)
  {
    if Below(m, x, a) {
      var n: nat :| Up(m, x, n) == Some(a);
      assert Up(m, m[x].parent.value, n - 1) == Some(a);
    }
    if m[x].parent.Some? && Below(m, m[x].parent.value, a) {
      var n: nat :| Up(m, m[x].parent.value, n) == Some(a);
      assert Up(m, x, n + 1) == Some(a);
    }
  }

  lemma SubtreeClosed(m: Entries, a: Id)
    ensures forall y | y in m && m[y].parent.Some? && m[y].parent.value in Subtree(m, a) :: y in Subtree(m, a)
  {
    forall y | y in m && m[y].parent.Some? && m[y].parent.value in Subtree(m, a)
      ensures y in Subtree(m, a)
    {
      var n: nat :| Up(m, m[y].parent.value, n) == Some(a);
      assert Up(m, y, n + 1) == Some(a);
    }
  }

  /** A set that contains `a` and the children of its members contains the subtree of `a`. */
  lemma {:induction false} SubtreeLeast(m: Entries, a: Id, closed: set<Id>, x: Id, n: nat)
    requires a in closed && x in m && Up(m, x, n) == Some(a)
    requires forall y | y in m && m[y].parent.Some? && m[y].parent.value in closed :: y in closed
    ensures x in closed
    decreases n
  {
    if n > 0 {
      var p := m[x].parent.value;
      if n == 1 {
        assert Up(m, p, 0) == Some(a);
      } else {
        assert p in m;
        SubtreeLeast(m, a, closed, p, n - 1);
      }
    }
  }

  // ---------------------------------------------------------------------------------
  // Acyclicity
  // ---------------------------------------------------------------------------------

  lemma {:induction false} RankDrops(m: Entries, rank: Id -> nat, x: Id, n: nat)
    requires Ranked(m, rank) && Up(m, x, n).Some?
    ensures rank(Up(m, x, n).value) + n <= rank(x)
    decreases n
  {
    if n > 0 {
      RankDrops(m, rank, m[x].parent.value, n - 1);
    }
  }

  /** No row is its own proper ancestor. */
  lemma NoCycle(m: Entries, x: Id, n: nat)
    requires Acyclic(m) && n > 0
    ensures Up(m, x, n) != Some(x)
  {
    var rank: Id -> nat :| Ranked(m, rank);
    if Up(m, x, n) == Some(x) {
      RankDrops(m, rank, x, n);
    }
  }

  /** Moving `x` under a row outside its own subtree keeps the links acyclic. */
  lemma ReparentAcyclic(m: Entries, x: Id, d: Id, m': Entries)
    requires Linked(m) && Acyclic(m) && x in m && d in m && d !in Subtree(m, x)
    requires m'.Keys == m.Keys && m'[x].parent == Some(d)
    requires forall y | y in m && y != x :: m'[y].parent == m[y].parent
    ensures Acyclic(m')
  {
    var rank: Id -> nat :| Ranked(m, rank);
    var below := Subtree(m, x);
    var rank': Id -> nat := y => if y in below then rank(y) + rank(d) + 1 else rank(y);
    forall y | y in m' && m'[y].parent.Some?
      ensures rank'(m'[y].parent.value) < rank'(y)
    {
      if y == x {
        SubtreeHasRoot(m, x);
      } else {
        SubtreeStep(m, x, y);
        assert m[y].parent.value in below <==> y in below;
      }
    }
    assert Ranked(m', rank');
  }

  /** Re-parenting `x` does not change what lies below it. */
  lemma ReparentSubtree(m: Entries, x: Id, m': Entries)
    requires x in m && m'.Keys == m.Keys
    requires forall y | y in m && y != x :: m'[y].parent == m[y].parent
    ensures Subtree(m', x) == Subtree(m, x)
  {
    SubtreeHasRoot(m, x);
    SubtreeHasRoot(m', x);
    SubtreeClosed(m, x);
    SubtreeClosed(m', x);
    forall y | y in m'
      ensures y in Subtree(m', x) <==> y in Subtree(m, x)
    {
      if y in Subtree(m, x) {
        var n: nat :| Up(m, y, n) == Some(x);
        SubtreeLeast(m, x, Subtree(m', x), y, n);
      }
      if y in Subtree(m', x) {
        var n: nat :| Up(m', y, n) == Some(x);
        SubtreeLeast(m', x, Subtree(m, x), y, n);
      }
    }
  }

  /** Whatever lies below a trashed entry is trashed. */
  lemma TrashedBelow(m: Entries, a: Id)
    requires TrashClosed(m) && a in m && m[a].deleted
    ensures forall x | x in Subtree(m, a) :: m[x].deleted
  {
    var trashed := set x | x in m && m[x].deleted;
    forall x | x in Subtree(m, a)
      ensures x in trashed
    {
      var n: nat :| Up(m, x, n) == Some(a);
      SubtreeLeast(m, a, trashed, x, n);
    }
  }

  // ---------------------------------------------------------------------------------
  // What each kind of change keeps
  // ---------------------------------------------------------------------------------

  /** A listed entry that keeps its item stays listed. */
  lemma StillListed(s: State, s': State, x: Id)
    requires HasItem(s, x)
    requires forall i | i in s.trash && s.trash[i].entry == x :: i in s'.trash && s'.trash[i] == s.trash[i]
    ensures HasItem(s', x)
  {
    var i :| i in s.trash && s.trash[i].entry == x;
    assert i in s'.trash && s'.trash[i].entry == x;
  }

  lemma ParentsPresent(m: Entries)
    requires Linked(m)
    ensures forall x {:trigger m[x].parent} | x in m && m[x].parent.Some? :: m[x].parent.value in m
  {
    forall x | x in m
      ensures m[x].parent.Some? ==> m[x].parent.value in m
    {
      assert ParentOk(m, x);
    }
  }

  lemma AddLeafTree(m: Entries, parent: Id, leaf: Entry, id: Id)
    requires TreeShaped(m) && OwnedFolder(m, parent, leaf.owner) && id !in m
    requires leaf.parent == Some(parent) && !leaf.deleted
    ensures TreeShaped(m[id := leaf])
  {
    var m' := m[id := leaf];
    ParentsPresent(m);
    forall x | x in m'
      ensures ParentOk(m', x)
    {
      assert x in m ==> ParentOk(m, x);
    }
    var rank: Id -> nat :| Ranked(m, rank);
    var rank': Id -> nat := x => if x == id then rank(parent) + 1 else rank(x);
    assert Ranked(m', rank');
  }

  /** Inserting one active row with a fresh id under an active folder. */
  lemma AddLeafSound(s: State, parent: Id, leaf: Entry, id: Id, s': State)
    requires Sound(s) && OwnedFolder(s.entries, parent, leaf.owner) && id !in s.entries
    requires leaf.parent == Some(parent) && !leaf.deleted
    requires s' == State(s.entries[id := leaf], s.trash, s'.objects) && s.objects <= s'.objects
    requires leaf.kind.File? ==> leaf.kind.version.Some? && leaf.kind.version.value in s'.objects
    ensures Sound(s')
  {
    AddLeafTree(s.entries, parent, leaf, id);
    ParentsPresent(s.entries);
    SameListing(s, s');
  }

  /** The name check of the use case is enough for the unique index. */
  lemma AddLeafUnique(m: Entries, parent: Id, leaf: Entry, id: Id)
    requires UniqueSiblings(m) && UniqueRoots(m) && id !in m && leaf.parent == Some(parent)
    requires !NameTaken(m, parent, leaf.name.normalized, None)
    ensures UniqueSiblings(m[id := leaf]) && UniqueRoots(m[id := leaf])
  {
    assert forall x | x in m && m[x].parent == Some(parent) && !m[x].deleted ::
        Some(x) != None && m[x].name.normalized != leaf.name.normalized;
  }

  /** Without changes to the trash, a listing survives if nothing becomes topmost. */
  lemma SameListing(s: State, s': State)
    requires TopmostListed(s) && s'.trash == s.trash
    requires forall x | x in s'.entries && s'.entries[x].deleted && s'.entries[x].parent.Some?
                        && Active(s'.entries, s'.entries[x].parent.value) ::
               x in s.entries && s.entries[x].deleted && s.entries[x].parent == s'.entries[x].parent
               && Active(s.entries, s'.entries[x].parent.value)
    ensures TopmostListed(s')
  {
    forall x | x in s'.entries && s'.entries[x].deleted && s'.entries[x].parent.Some?
               && Active(s'.entries, s'.entries[x].parent.value)
      ensures HasItem(s', x)
    {
      StillListed(s, s', x);
    }
  }

  lemma RenameSound(s: State, entry: Id, name: EntryName, s': State)
    requires Sound(s) && entry in s.entries
    requires s' == s.(entries := s.entries[entry := s.entries[entry].(name := name)])
    ensures Sound(s')
  {
    forall x | x in s'.entries
      ensures ParentOk(s'.entries, x)
    {
      assert x in s.entries ==> ParentOk(s.entries, x);
    }
    var rank: Id -> nat :| Ranked(s.entries, rank);
    assert Ranked(s'.entries, rank);
    SameListing(s, s');
  }

  lemma MoveSound(s: State, entry: Id, destination: Id, s': State)
    requires Sound(s) && Active(s.entries, entry) && s.entries[entry].parent.Some?
    requires OwnedFolder(s.entries, destination, s.entries[entry].owner)
    requires entry != destination && (s.entries[entry].kind.Folder? ==> destination !in Subtree(s.entries, entry))
    requires s' == s.(entries := s.entries[entry := s.entries[entry].(parent := Some(destination))])
    ensures Sound(s')
  {
    forall x | x in s'.entries
      ensures ParentOk(s'.entries, x)
    {
      assert x in s.entries ==> ParentOk(s.entries, x);
    }
    DestinationOutside(s.entries, entry, destination);
    ReparentAcyclic(s.entries, entry, destination, s'.entries);
    SameListing(s, s');
  }

  /** Only folders have rows below them, so the descendant check of a move covers files too. */
  lemma DestinationOutside(m: Entries, entry: Id, destination: Id)
    requires Linked(m) && entry in m && entry != destination
    requires m[entry].kind.Folder? ==> destination !in Subtree(m, entry)
    ensures destination !in Subtree(m, entry)
  {
    if destination in Subtree(m, entry) {
      var n: nat :| Up(m, destination, n) == Some(entry);
      assert forall y | y in m :: ParentOk(m, y);
      if m[entry].kind.File? {
        SubtreeLeast(m, entry, {entry}, destination, n);
      }
    }
  }

  lemma TrashSoundAfter(s: State, entry: Id, newItem: Id, s': State)
    requires Sound(s) && Active(s.entries, entry) && s.entries[entry].parent.Some? && newItem !in s.trash
    requires s' == State(SetDeleted(s.entries, Subtree(s.entries, entry), true),
                         s.trash[newItem := TrashItem(entry, s.entries[entry].parent.value, s.entries[entry].owner)],
                         s.objects)
    ensures Sound(s')
  {
    var m, m' := s.entries, s'.entries;
    var below := Subtree(m, entry);
    SubtreeClosed(m, entry);
    forall x | x in m'
      ensures ParentOk(m', x)
    {
      assert x in m ==> ParentOk(m, x);
    }
    var rank: Id -> nat :| Ranked(m, rank);
    assert Ranked(m', rank);
    forall x | x in m' && m'[x].deleted && m'[x].parent.Some? && Active(m', m'[x].parent.value)
      ensures HasItem(s', x)
    {
      if x == entry {
        assert newItem in s'.trash && s'.trash[newItem].entry == entry;
      } else {
        SubtreeStep(m, entry, x);
        StillListed(s, s', x);
      }
    }
    forall x | x in m && m[x].parent.None?
      ensures x !in below
    {
    }
  }

  /**
   The destination of a restore is active while everything below the entry is trashed, so
   it lies outside the entry's subtree although the use case never asks.
   */
  lemma RestoreDestinationOutside(m: Entries, entry: Id, destination: Id)
    requires TrashClosed(m) && entry in m && m[entry].deleted && Active(m, destination)
    ensures destination !in Subtree(m, entry)
  {
    TrashedBelow(m, entry);
  }

  /** The rows a restore leaves, described from the rows it found. */
  ghost predicate RestoredRows(m: Entries, x: Id, d: Id, m': Entries) {
    && x in m && m'.Keys == m.Keys
    && forall y {:trigger m'[y]} | y in m ::
         m'[y] == m[y].(parent := if y == x then Some(d) else m[y].parent,
                        deleted := m[y].deleted && y !in Subtree(m, x))
  }

  lemma RestoreRows(m: Entries, x: Id, d: Id)
    requires x in m
    ensures var moved := m[x := m[x].(parent := Some(d), deleted := false)];
            RestoredRows(m, x, d, SetDeleted(moved, Subtree(moved, x), false))
  {
    var moved := m[x := m[x].(parent := Some(d), deleted := false)];
    ReparentSubtree(m, x, moved);
    SubtreeHasRoot(m, x);
  }

  lemma RestoreTree(m: Entries, x: Id, d: Id, m': Entries)
    requires TreeShaped(m) && RestoredRows(m, x, d, m') && m[x].deleted && OwnedFolder(m, d, m[x].owner)
    ensures TreeShaped(m')
  {
    forall x | x in m'
      ensures ParentOk(m', x)
    {
      assert x in m ==> ParentOk(m, x);
    }
    RestoreDestinationOutside(m, x, d);
    ReparentAcyclic(m, x, d, m');
    forall y | y in m' && m'[y].parent.Some? && m'[y].parent.value in m' && m'[m'[y].parent.value].deleted
      ensures m'[y].deleted
    {
      if y != x {
        SubtreeStep(m, x, y);
      }
    }
  }

  lemma RestoreListing(s: State, item: Id, d: Id, m': Entries)
    requires Sound(s) && item in s.trash && RestoredRows(s.entries, s.trash[item].entry, d, m')
    requires Active(s.entries, d)
    ensures TopmostListed(State(m', s.trash - {item}, s.objects))
  {
    var x, m := s.trash[item].entry, s.entries;
    SubtreeHasRoot(m, x);
    SubtreeClosed(m, x);
    forall y | y in m' && m'[y].deleted && m'[y].parent.Some? && Active(m', m'[y].parent.value)
      ensures HasItem(State(m', s.trash - {item}, s.objects), y)
    {
      assert y !in Subtree(m, x) && m[y].parent.value !in Subtree(m, x);
      StillListed(s, State(m', s.trash - {item}, s.objects), y);
    }
  }

  lemma RestoreSound(s: State, item: Id, d: Id, s': State)
    requires Sound(s) && item in s.trash && s.entries[s.trash[item].entry].deleted
    requires OwnedFolder(s.entries, d, s.entries[s.trash[item].entry].owner)
    requires RestoredRows(s.entries, s.trash[item].entry, d, s'.entries)
    requires s'.trash == s.trash - {item} && s'.objects == s.objects
    ensures Sound(s')
  {
    RestoreTree(s.entries, s.trash[item].entry, d, s'.entries);
    RestoreListing(s, item, d, s'.entries);
  }

  lemma PurgeSound(s: State, item: Id, s': State)
    requires Sound(s) && item in s.trash
    requires var gone := Subtree(s.entries, s.trash[item].entry);
             s' == State(s.entries - gone,
                         map i | i in s.trash && i != item && s.trash[i].entry !in gone :: s.trash[i],
                         s.objects)
    ensures Sound(s')
  {
    var x := s.trash[item].entry;
    var m, m' := s.entries, s'.entries;
    SubtreeClosed(m, x);
    SubtreeHasRoot(m, x);
    forall x | x in m'
      ensures ParentOk(m', x)
    {
      assert x in m ==> ParentOk(m, x);
    }
    var rank: Id -> nat :| Ranked(m, rank);
    assert Ranked(m', rank);
    forall y | y in m' && m'[y].deleted && m'[y].parent.Some? && Active(m', m'[y].parent.value)
      ensures HasItem(s', y)
    {
      StillListed(s, s', y);
    }
  }

  lemma ProvisionSound(s: State, owner: OwnerId, name: EntryName, newId: Id, s': State)
    requires Sound(s) && newId !in s.entries
    requires s' == s.(entries := s.entries[newId := Entry(owner, None, Folder, name, false)])
    ensures Sound(s')
  {
    ParentsPresent(s.entries);
    forall x | x in s'.entries
      ensures ParentOk(s'.entries, x)
    {
      assert x in s.entries ==> ParentOk(s.entries, x);
    }
    var rank: Id -> nat :| Ranked(s.entries, rank);
    assert Ranked(s'.entries, rank);
    SameListing(s, s');
  }

  lemma RestoreStepSound(s: State, o: OwnerId, i: Id, destination: Option<Id>, s': State)
    requires Sound(s) && RestoreStep(s, o, i, destination) == Ok(s')
    ensures Sound(s')
  {
    var d := if destination.Some? then destination.value else s.trash[i].originalParent;
    RestoreRows(s.entries, s.trash[i].entry, d);
    RestoreSound(s, i, d, s');
  }

  lemma TrashStepSound(s: State, o: OwnerId, e: Id, i: Id, s': State)
    requires Sound(s) && TrashStep(s, o, e, i) == Ok(s')
    ensures Sound(s')
  {
    if !s.entries[e].deleted {
      TrashSoundAfter(s, e, i, s');
    }
  }

  lemma StepSound(s: State, c: Command, s': State)
    requires Sound(s) && !c.CopyFolder? && Step(s, c) == Ok(s')
    ensures Sound(s')
  {
    match c
    case ProvisionRoot(o, n, id) => ProvisionSound(s, o, n, id, s');
    case CreateFolder(o, p, n, id) => AddLeafSound(s, p, s'.entries[id], id, s');
    case Rename(o, e, n) => RenameSound(s, e, n, s');
    case Move(o, e, d) => MoveSound(s, e, d, s');
    case CopyFile(o, e, d, n, id) => AddLeafSound(s, d, s'.entries[id], id, s');
    case CompleteUpload(o, p, n, id, obj) => AddLeafSound(s, p, s'.entries[id], id, s');
    case Trash(o, e, i) => TrashStepSound(s, o, e, i, s');
    case Restore(o, i, d) => RestoreStepSound(s, o, i, d, s');
    case Purge(o, i) => PurgeSound(s, i, s');
  }

  lemma StepCommits(s: State, c: Command, s': State)
    requires !c.CopyFolder? && Step(s, c) == Ok(s')
    ensures s' == s || Commit(s') == Ok(s')
  {
    match c
    case ProvisionRoot(o, n, id) =>
    case CreateFolder(o, p, n, id) =>
    case Rename(o, e, n) =>
    case Move(o, e, d) =>
    case CopyFile(o, e, d, n, id) =>
    case CompleteUpload(o, p, n, id, obj) =>
    case Trash(o, e, i) =>
    case Restore(o, i, d) =>
    case Purge(o, i) =>
  }

  /** Every command but a folder copy keeps the invariant. */
  lemma StepKeeps(s: State, c: Command, s': State)
    requires Valid(s) && !c.CopyFolder? && Step(s, c) == Ok(s')
    ensures Valid(s')
  {
    StepSound(s, c, s');
    StepCommits(s, c, s');
  }

  // ---------------------------------------------------------------------------------
  // Folder copy
  // ---------------------------------------------------------------------------------

  /** The copied rows hang below the fresh root, which nothing pointed at before. */
  ghost predicate CopySetting(before: Entries, source: Id, f: map<Id, Id>, origin: map<Id, Id>, after: Entries) {
    && CopyRows(before, source, f, origin, after)
    && source in f && f[source] in before && f[source] != source
    && before[f[source]].kind.Folder? && !before[f[source]].deleted
    && before[f[source]].owner == before[source].owner
    && (forall x | x in before :: before[x].parent != Some(f[source]))
    && (forall c | c in f :: !before[c].deleted)
  }

  ghost function ShiftedRank(before: Entries, origin: map<Id, Id>, rank: Id -> nat, shift: nat, y: Id): nat {
    if y in before then rank(y) else if y in origin then rank(origin[y]) + shift else 0
  }

  /** Copies rank above the fresh root in the order of their originals. */
  lemma CopyAcyclic(before: Entries, source: Id, f: map<Id, Id>, origin: map<Id, Id>, after: Entries)
    requires CopySetting(before, source, f, origin, after) && Linked(before) && Acyclic(before)
    ensures Acyclic(after)
  {
    var rank: Id -> nat :| Ranked(before, rank);
    var shift := rank(f[source]) + 1;
    var rank': Id -> nat := y => ShiftedRank(before, origin, rank, shift, y);
    forall y | y in after && after[y].parent.Some?
      ensures rank'(after[y].parent.value) < rank'(y)
    {
      if y in before {
        assert ParentOk(before, y);
      } else {
        assert CopyOf(before, f, origin[y], after[y]);
      }
    }
    assert Ranked(after, rank');
  }

  lemma CopyTree(before: Entries, source: Id, f: map<Id, Id>, origin: map<Id, Id>, after: Entries)
    requires CopySetting(before, source, f, origin, after) && TreeShaped(before)
    ensures TreeShaped(after)
  {
    CopyAcyclic(before, source, f, origin, after);
    forall y | y in after
      ensures ParentOk(after, y)
      ensures y in origin ==> after[y].parent.Some? && !after[y].deleted && !after[after[y].parent.value].deleted
      ensures y in before && after[y].parent.Some? ==> after[y].parent.value in before
    {
      if y in before {
        assert ParentOk(before, y);
      } else {
        assert CopyOf(before, f, origin[y], after[y]);
        assert ParentOk(before, origin[y]);
        var p := before[origin[y]].parent.value;
        assert p != source ==> CopyOf(before, f, p, after[f[p]]);
      }
    }
  }

  lemma CopyUnique(before: Entries, source: Id, f: map<Id, Id>, origin: map<Id, Id>, after: Entries)
    requires CopySetting(before, source, f, origin, after)
    requires Linked(before) && UniqueSiblings(before) && UniqueRoots(before)
    ensures UniqueSiblings(after) && UniqueRoots(after)
  {
    forall x, y {:trigger after[x].name, after[y].name}
      | x in after && y in after && !after[x].deleted && !after[y].deleted && after[x].parent.Some?
        && after[x].parent == after[y].parent && after[x].name.normalized == after[y].name.normalized
      ensures x == y
    {
      CopiedPairUnique(before, source, f, origin, after, x, y);
    }
    forall x | x in origin
      ensures after[x].parent.Some?
    {
      assert CopyOf(before, f, origin[x], after[x]);
    }
  }

  lemma CopiedPairUnique(before: Entries, source: Id, f: map<Id, Id>, origin: map<Id, Id>, after: Entries, x: Id, y: Id)
    requires CopySetting(before, source, f, origin, after) && Linked(before) && UniqueSiblings(before)
    requires x in after && y in after && !after[x].deleted && !after[y].deleted && after[x].parent.Some?
    requires after[x].parent == after[y].parent && after[x].name.normalized == after[y].name.normalized
    ensures x == y
  {
    assert x in before ==> ParentOk(before, x);
    assert y in before ==> ParentOk(before, y);
    assert x in origin ==> CopyOf(before, f, origin[x], after[x]);
    assert y in origin ==> CopyOf(before, f, origin[y], after[y]);
    if x in origin && y in origin {
      SameCopySameOriginal(before, source, f, origin, after,
                           before[origin[x]].parent.value, before[origin[y]].parent.value);
    }
  }

  lemma SameCopySameOriginal(before: Entries, source: Id, f: map<Id, Id>, origin: map<Id, Id>, after: Entries, c: Id,
                             d: Id)
    requires CopySetting(before, source, f, origin, after) && c in f && d in f && f[c] == f[d]
    ensures c == d
  {
  }

  lemma CopyBelowSound(s: State, source: Id, f: map<Id, Id>, origin: map<Id, Id>, s': State)
    requires Sound(s) && CopySetting(s.entries, source, f, origin, s'.entries)
    requires s'.trash == s.trash && s'.objects == s.objects
    ensures Sound(s')
  {
    CopyTree(s.entries, source, f, origin, s'.entries);
    forall y | y in origin
      ensures !s'.entries[y].deleted && s'.entries[y].kind == s.entries[origin[y]].kind
    {
      assert CopyOf(s.entries, f, origin[y], s'.entries[y]);
    }
    forall y | y in s.entries && s.entries[y].parent.Some?
      ensures s.entries[y].parent.value in s.entries
    {
      assert ParentOk(s.entries, y);
    }
    SameListing(s, s');
  }

  /** The setting that the fresh root of a folder copy creates. */
  lemma CopyRootSetting(s: State, source: Id, destination: Id, name: EntryName, rootId: Id,
                        f: map<Id, Id>, origin: map<Id, Id>, after: Entries)
    requires Linked(s.entries) && source in s.entries && s.entries[source].kind.Folder? && rootId !in s.entries
    requires OwnedFolder(s.entries, destination, s.entries[source].owner)
    requires source in f && f[source] == rootId
    requires CopiesBelow(WithCopyRoot(s, source, destination, name, rootId), source, f, origin, after)
    ensures CopySetting(WithCopyRoot(s, source, destination, name, rootId), source, f, origin, after)
    ensures Linked(WithCopyRoot(s, source, destination, name, rootId))
  {
    var rooted := WithCopyRoot(s, source, destination, name, rootId);
    forall x | x in rooted
      ensures ParentOk(rooted, x) && rooted[x].parent != Some(rootId)
    {
      if x != rootId {
        assert ParentOk(s.entries, x);
      }
    }
  }

  /** A folder copy keeps the invariant. */
  lemma CopyFolderKeeps(s: State, caller: OwnerId, source: Id, destination: Id, newName: Option<EntryName>,
                        rootId: Id, s': State)
    requires Valid(s) && CopyFolderNext(s, caller, source, destination, newName, rootId, s')
    ensures Valid(s')
  {
    var name, f, origin := CopyWitness(s, caller, source, destination, newName, rootId, s');
    CopyFolderSound(s, source, destination, name, rootId, f, origin, s');
    CopyFolderNeverClashes(s, source, destination, name, rootId, f, origin, s'.entries);
  }

  /** The name and the correspondence behind a folder copy that passed its checks. */
  lemma CopyWitness(s: State, caller: OwnerId, source: Id, destination: Id, newName: Option<EntryName>, rootId: Id,
                    s': State)
    returns (name: EntryName, f: map<Id, Id>, origin: map<Id, Id>)
    requires CopyFolderNext(s, caller, source, destination, newName, rootId, s')
    ensures CopyChecks(s, caller, source, destination, newName) == Ok(name)
    ensures source in s.entries && s.entries[source].kind.Folder? && rootId !in s.entries
    ensures OwnedFolder(s.entries, destination, s.entries[source].owner)
    ensures !NameTaken(s.entries, destination, name.normalized, None)
    ensures source in f && f[source] == rootId
    ensures CopiesBelow(WithCopyRoot(s, source, destination, name, rootId), source, f, origin, s'.entries)
  {
    name := CopyChecks(s, caller, source, destination, newName).value;
    var rooted := WithCopyRoot(s, source, destination, name, rootId);
    f, origin :| source in f && f[source] == rootId && CopiesBelow(rooted, source, f, origin, s'.entries);
  }

  lemma CopyFolderSound(s: State, source: Id, destination: Id, name: EntryName, rootId: Id,
                        f: map<Id, Id>, origin: map<Id, Id>, s': State)
    requires Sound(s) && source in s.entries && s.entries[source].kind.Folder? && rootId !in s.entries
    requires OwnedFolder(s.entries, destination, s.entries[source].owner)
    requires source in f && f[source] == rootId && s'.trash == s.trash && s'.objects == s.objects
    requires CopiesBelow(WithCopyRoot(s, source, destination, name, rootId), source, f, origin, s'.entries)
    ensures Sound(s')
  {
    var rooted := WithCopyRoot(s, source, destination, name, rootId);
    CopyRootSetting(s, source, destination, name, rootId, f, origin, s'.entries);
    AddLeafSound(s, destination, rooted[rootId], rootId, s.(entries := rooted));
    CopyBelowSound(s.(entries := rooted), source, f, origin, s');
  }

  /** The name check at the destination is enough for every level of a folder copy. */
  lemma CopyFolderNeverClashes(s: State, source: Id, destination: Id, name: EntryName, rootId: Id,
                               f: map<Id, Id>, origin: map<Id, Id>, after: Entries)
    requires Linked(s.entries) && UniqueSiblings(s.entries) && UniqueRoots(s.entries)
    requires source in s.entries && s.entries[source].kind.Folder? && rootId !in s.entries
    requires OwnedFolder(s.entries, destination, s.entries[source].owner)
    requires !NameTaken(s.entries, destination, name.normalized, None)
    requires source in f && f[source] == rootId
    requires CopiesBelow(WithCopyRoot(s, source, destination, name, rootId), source, f, origin, after)
    ensures UniqueSiblings(after) && UniqueRoots(after)
  {
    var rooted := WithCopyRoot(s, source, destination, name, rootId);
    CopyRootSetting(s, source, destination, name, rootId, f, origin, after);
    AddLeafUnique(s.entries, destination, rooted[rootId], rootId);
    CopyUnique(rooted, source, f, origin, after);
  }

  // ---------------------------------------------------------------------------------
  // Runs
  // ---------------------------------------------------------------------------------

  lemma NextKeeps(s: State, c: Command, s': State)
    requires Valid(s) && Next(s, c, s')
    ensures Valid(s')
  {
    if s' != s {
      if c.CopyFolder? {
        CopyFolderKeeps(s, c.caller, c.entry, c.to, c.newName, c.newId, s');
      } else {
        StepKeeps(s, c, s');
      }
    }
  }

  /** Every state of every serial run satisfies the invariant. */
  lemma {:induction false} EveryRunKeeps(states: seq<State>, commands: seq<Command>, i: nat)
    requires IsRun(states, commands) && i < |states|
    ensures Valid(states[i])
    decreases i
  {
    if i == 0 {
      assert Ranked(EMPTY.entries, (x: Id) => 0);
    } else {
      EveryRunKeeps(states, commands, i - 1);
      NextKeeps(states[i - 1], commands[i - 1], states[i]);
    }
  }

  /** The chain of parents of every row ends at the one active root of its owner. */
  lemma {:induction false} HangsFromRoot(s: State, x: Id, rank: Id -> nat) returns (n: nat, root: Id)
    requires Valid(s) && x in s.entries && Ranked(s.entries, rank)
    ensures Up(s.entries, x, n) == Some(root)
    ensures root in s.entries && s.entries[root].parent.None? && !s.entries[root].deleted
    ensures s.entries[root].kind.Folder? && s.entries[root].owner == s.entries[x].owner
    ensures forall y | y in s.entries && s.entries[y].parent.None? && s.entries[y].owner == s.entries[x].owner ::
              y == root
    decreases rank(x)
  {
    if s.entries[x].parent.None? {
      n, root := 0, x;
    } else {
      assert ParentOk(s.entries, x);
      n, root := HangsFromRoot(s, s.entries[x].parent.value, rank);
      n := n + 1;
    }
  }

  ghost predicate HangsFromOwnRoot(m: Entries, x: Id) {
    x in m && exists root ::
      root in m && m[root].parent.None? && m[root].owner == m[x].owner && Below(m, x, root)
  }

  ghost predicate OneTreePerOwner(m: Entries) {
    && (forall x {:trigger HangsFromOwnRoot(m, x)} | x in m :: HangsFromOwnRoot(m, x))
    && (forall x, y | x in m && y in m && m[x].parent.None? && m[y].parent.None? && m[x].owner == m[y].owner :: x == y)
  }

  ghost predicate NoRowAboveItself(m: Entries) {
    forall x: Id, n: nat {:trigger Up(m, x, n)} | n > 0 :: Up(m, x, n) != Some(x)
  }

  ghost predicate TrashedAllTheWayDown(m: Entries) {
    forall a, x | a in m && m[a].deleted && x in Subtree(m, a) :: m[x].deleted
  }

  lemma ValidHasOneTreePerOwner(s: State)
    requires Valid(s)
    ensures OneTreePerOwner(s.entries)
  {
    var m := s.entries;
    var rank: Id -> nat :| Ranked(m, rank);
    forall x {:trigger HangsFromOwnRoot(m, x)} | x in m
      ensures HangsFromOwnRoot(m, x)
    {
      var n, root := HangsFromRoot(s, x, rank);
      assert Below(m, x, root);
    }
  }

  /**
   In every reachable state the parent links form one tree per owner: every chain of parents
   ends at the owner's only root, no row is its own ancestor, every parent is a folder of the
   same owner, and everything below a trashed row is trashed.
   */
  lemma RunsFormTrees(states: seq<State>, commands: seq<Command>, i: nat)
    requires IsRun(states, commands) && i < |states|
    ensures OneTreePerOwner(states[i].entries) && NoRowAboveItself(states[i].entries)
    ensures Linked(states[i].entries) && TrashedAllTheWayDown(states[i].entries)
  {
    EveryRunKeeps(states, commands, i);
    ValidHasOneTreePerOwner(states[i]);
    var m := states[i].entries;
    forall x: Id, n: nat {:trigger Up(m, x, n)} | n > 0
      ensures Up(m, x, n) != Some(x)
    {
      NoCycle(m, x, n);
    }
    forall a, x | a in m && m[a].deleted && x in Subtree(m, a)
      ensures m[x].deleted
    {
      TrashedBelow(m, a);
    }
  }
}
