/** What the commands achieve: which refusals can happen, what undoes what, what a copy is. */
module StorageTreeResults {
  import opened Outcomes
  import opened StorageTree
  import opened StorageTreeProofs

  // ---------------------------------------------------------------------------------
  // When the database refuses a commit
  // ---------------------------------------------------------------------------------

  ghost predicate FreshIds(s: State, c: Command) {
    match c
    case ProvisionRoot(_, _, id) => id !in s.entries
    case CreateFolder(_, _, _, id) => id !in s.entries
    case CopyFile(_, _, _, _, id) => id !in s.entries
    case CopyFolder(_, _, _, _, id) => id !in s.entries
    case CompleteUpload(_, _, _, id, obj) => id !in s.entries && obj !in s.objects
    case Trash(_, _, i) => i !in s.trash
    case _ => true
  }

  /** Two rows below `x` that the unique index would not admit as active siblings. */
  ghost predicate ClashBelow(m: Entries, x: Id) {
    exists y, z | y in Subtree(m, x) && z in Subtree(m, x) ::
      y != z && y != x && z != x && m[y].parent == m[z].parent && m[y].name.normalized == m[z].name.normalized
  }

  ghost predicate RestoreAccepted(s: State, caller: OwnerId, item: Id, destination: Option<Id>) {
    && item in s.trash && s.trash[item].deletedBy == caller
    && var t := s.trash[item];
    var d := if destination.Some? then destination.value else t.originalParent;
    && t.entry in s.entries && s.entries[t.entry].owner == caller && s.entries[t.entry].deleted
    && OwnedFolder(s.entries, d, caller)
    && !NameTaken(s.entries, d, s.entries[t.entry].name.normalized, Some(t.entry))
  }

  /** For these commands the checks of the use case leave the indexes nothing to refuse. */
  lemma NameChecksSuffice(s: State, c: Command)
    requires Valid(s) && FreshIds(s, c)
    requires c.CreateFolder? || c.Rename? || c.Move? || c.CopyFile? || c.CompleteUpload? || c.Purge?
    ensures Step(s, c) != Err(Constraint)
  {
    match c
    case CreateFolder(o, p, n, id) =>
      if OwnedFolder(s.entries, p, o) && !NameTaken(s.entries, p, n.normalized, None) {
        AddLeafUnique(s.entries, p, Entry(o, Some(p), Folder, n, false), id);
      }
    case Rename(o, e, n) =>
      if OwnedActive(s.entries, e, o) && s.entries[e].parent.Some?
         && !NameTaken(s.entries, s.entries[e].parent.value, n.normalized, Some(e)) {
        ChangeUnique(s.entries, e, s.entries[e].parent.value, s.entries[e].(name := n));
      }
    case Move(o, e, d) =>
      if OwnedActive(s.entries, e, o) && s.entries[e].parent.Some?
         && !NameTaken(s.entries, d, s.entries[e].name.normalized, Some(e)) {
        ChangeUnique(s.entries, e, d, s.entries[e].(parent := Some(d)));
      }
    case CopyFile(o, e, d, n, id) =>
      var checked := CopyChecks(s, o, e, d, n);
      if checked.Ok? {
        var k := s.entries[e];
        AddLeafUnique(s.entries, d, Entry(k.owner, Some(d), k.kind, checked.value, false), id);
      }
    case CompleteUpload(o, p, n, id, obj) =>
      if OwnedFolder(s.entries, p, o) && !NameTaken(s.entries, p, n.normalized, None) {
        AddLeafUnique(s.entries, p, Entry(o, Some(p), File(Some(obj)), n, false), id);
      }
    case Purge(o, i) =>
  }

  /** A changed row whose name is free among its siblings-to-be. */
  lemma ChangeUnique(m: Entries, x: Id, parent: Id, row: Entry)
    requires UniqueSiblings(m) && UniqueRoots(m) && x in m && row.parent == Some(parent)
    requires !NameTaken(m, parent, row.name.normalized, Some(x))
    ensures UniqueSiblings(m[x := row]) && UniqueRoots(m[x := row])
  {
    assert forall y | y in m && m[y].parent == Some(parent) && !m[y].deleted && y != x ::
        Some(y) != Some(x) && m[y].name.normalized != row.name.normalized;
  }

  /** The parent of an active entry is an active folder of its owner outside the entry's subtree. */
  lemma ParentIsFitDestination(s: State, entry: Id)
    requires Valid(s) && Active(s.entries, entry) && s.entries[entry].parent.Some?
    ensures var p := s.entries[entry].parent.value;
            OwnedFolder(s.entries, p, s.entries[entry].owner) && p !in Subtree(s.entries, entry) && p != entry
  {
    var p := s.entries[entry].parent.value;
    assert ParentOk(s.entries, entry);
    if Below(s.entries, p, entry) {
      var n: nat :| Up(s.entries, p, n) == Some(entry);
      assert Up(s.entries, entry, n + 1) == Some(entry);
      NoCycle(s.entries, entry, n + 1);
    }
  }

  /** A committed move can always be taken back, and that restores every row. */
  lemma MoveThereAndBack(s: State, caller: OwnerId, entry: Id, destination: Id, s1: State)
    requires Valid(s) && MoveStep(s, caller, entry, destination) == Ok(s1)
    ensures MoveStep(s1, caller, entry, s.entries[entry].parent.value) == Ok(s)
  {
    var p := s.entries[entry].parent.value;
    ParentIsFitDestination(s, entry);
    ReparentSubtree(s.entries, entry, s1.entries);
    assert s1.entries[entry := s.entries[entry]] == s.entries;
    assert !NameTaken(s1.entries, p, s.entries[entry].name.normalized, Some(entry));
  }

  /** Renaming back restores every row: the old name has stayed free. */
  lemma RenameThereAndBack(s: State, caller: OwnerId, entry: Id, name: EntryName, s1: State)
    requires Valid(s) && RenameStep(s, caller, entry, name) == Ok(s1)
    ensures RenameStep(s1, caller, entry, s.entries[entry].name) == Ok(s)
  {
    var p := s.entries[entry].parent.value;
    assert s1.entries[entry := s.entries[entry]] == s.entries;
    assert !NameTaken(s1.entries, p, s.entries[entry].name.normalized, Some(entry));
  }

  /** Trashing an active entry is refused exactly when an older item still points at it. */
  lemma TrashRefusedIff(s: State, caller: OwnerId, entry: Id, newItem: Id)
    requires Valid(s) && newItem !in s.trash
    requires OwnedActive(s.entries, entry, caller) && s.entries[entry].parent.Some?
    ensures TrashStep(s, caller, entry, newItem) == Err(Constraint) <==> HasItem(s, entry)
  {
    var t := TrashItem(entry, s.entries[entry].parent.value, caller);
    var after := SetDeleted(s.entries, Subtree(s.entries, entry), true);
    assert UniqueSiblings(after) && UniqueRoots(after);
    if HasItem(s, entry) {
      var i :| i in s.trash && s.trash[i].entry == entry;
      assert s.trash[newItem := t][i].entry == s.trash[newItem := t][newItem].entry;
    }
  }

  ghost function RestoreTo(s: State, item: Id, destination: Option<Id>): Id
    requires item in s.trash
  {
    if destination.Some? then destination.value else s.trash[item].originalParent
  }

  /** The rows an accepted restore offers to commit. */
  lemma AcceptedRestore(s: State, caller: OwnerId, item: Id, destination: Option<Id>) returns (after: Entries)
    requires RestoreAccepted(s, caller, item, destination)
    ensures RestoredRows(s.entries, s.trash[item].entry, RestoreTo(s, item, destination), after)
    ensures RestoreStep(s, caller, item, destination) == Commit(State(after, s.trash - {item}, s.objects))
  {
    var x, d := s.trash[item].entry, RestoreTo(s, item, destination);
    var moved := s.entries[x := s.entries[x].(parent := Some(d), deleted := false)];
    after := SetDeleted(moved, Subtree(moved, x), false);
    RestoreRows(s.entries, x, d);
  }

  lemma RestoreOutcome(s: State, caller: OwnerId, item: Id, destination: Option<Id>, s': State)
    requires RestoreStep(s, caller, item, destination) == Ok(s')
    ensures RestoreAccepted(s, caller, item, destination)
    ensures RestoredRows(s.entries, s.trash[item].entry, RestoreTo(s, item, destination), s'.entries)
    ensures s'.trash == s.trash - {item} && s'.objects == s.objects
  {
    var after := AcceptedRestore(s, caller, item, destination);
  }

  /** An accepted restore is refused exactly when it would re-activate two clashing siblings. */
  lemma RestoreRefusedIff(s: State, caller: OwnerId, item: Id, destination: Option<Id>)
    requires Valid(s) && RestoreAccepted(s, caller, item, destination)
    ensures RestoreStep(s, caller, item, destination) == Err(Constraint) <==> ClashBelow(s.entries, s.trash[item].entry)
    ensures RestoreStep(s, caller, item, destination).Ok? <==> !ClashBelow(s.entries, s.trash[item].entry)
  {
    var after := AcceptedRestore(s, caller, item, destination);
    RestoredUniqueIff(s.entries, s.trash[item].entry, RestoreTo(s, item, destination), after);
  }

  lemma RestoredUniqueIff(m: Entries, x: Id, d: Id, after: Entries)
    requires TreeShaped(m) && UniqueSiblings(m) && UniqueRoots(m)
    requires RestoredRows(m, x, d, after) && m[x].deleted && Active(m, d)
    requires !NameTaken(m, d, m[x].name.normalized, Some(x))
    ensures UniqueSiblings(after) <==> !ClashBelow(m, x)
    ensures UniqueRoots(after)
  {
    RevivedRootsUnique(m, x, d, after);
    if ClashBelow(m, x) {
      ClashIsSeen(m, x, d, after);
    } else {
      forall y, z | y in after && z in after && !after[y].deleted && !after[z].deleted && after[y].parent.Some?
                    && after[y].parent == after[z].parent && after[y].name.normalized == after[z].name.normalized
        ensures y == z
      {
        RestoredPairUnique(m, x, d, after, y, z);
      }
    }
  }

  lemma ClashIsSeen(m: Entries, x: Id, d: Id, after: Entries)
    requires ClashBelow(m, x) && RestoredRows(m, x, d, after)
    ensures !UniqueSiblings(after)
  {
    var y, z :| y in Subtree(m, x) && z in Subtree(m, x)
      && y != z && y != x && z != x && m[y].parent == m[z].parent && m[y].name.normalized == m[z].name.normalized;
    SubtreeStep(m, x, y);
    assert after[y].parent == after[z].parent && !after[y].deleted && !after[z].deleted;
  }

  lemma RevivedRootsUnique(m: Entries, x: Id, d: Id, after: Entries)
    requires UniqueRoots(m) && RootsAreActiveFolders(m) && RestoredRows(m, x, d, after)
    ensures UniqueRoots(after)
  {
  }

  lemma RestoredPairUnique(m: Entries, x: Id, d: Id, after: Entries, y: Id, z: Id)
    requires TreeShaped(m) && UniqueSiblings(m) && RestoredRows(m, x, d, after) && m[x].deleted && Active(m, d)
    requires !NameTaken(m, d, m[x].name.normalized, Some(x)) && !ClashBelow(m, x)
    requires y in after && z in after && !after[y].deleted && !after[z].deleted && after[y].parent.Some?
    requires after[y].parent == after[z].parent && after[y].name.normalized == after[z].name.normalized
    ensures y == z
  {
    RestoreDestinationOutside(m, x, d);
    if y != x {
      SubtreeStep(m, x, y);
    }
    if z != x {
      SubtreeStep(m, x, z);
    }
  }

  /** A trash item whose entry is active: the entry cannot be trashed while the item is there. */
  predicate Stale(s: State, i: Id) {
    i in s.trash && Active(s.entries, s.trash[i].entry)
  }

  /** The items that a committed command leaves stale. */
  ghost predicate StaleAfter(s: State, c: Command, i: Id) {
    && i in s.trash
    && match c
       case Restore(_, item, _) =>
         Stale(s, i) || (item in s.trash && s.trash[i].entry in Subtree(s.entries, s.trash[item].entry))
       case Trash(_, entry, _) => Stale(s, i) && s.trash[i].entry !in Subtree(s.entries, entry)
       case _ => Stale(s, i)
  }

  /**
   Items become stale exactly by restoring an entry that theirs lies below, and stop being
   stale exactly by trashing such an entry; no other command changes which items are stale.
   */
  lemma StaleAfterIff(s: State, c: Command, s': State, i: Id)
    requires Valid(s) && Next(s, c, s') && s' != s && i in s'.trash
    ensures Stale(s', i) <==> StaleAfter(s, c, i)
  {
    if c.CopyFolder? {
      CopyKeepsRows(s, c.caller, c.entry, c.to, c.newName, c.newId, s');
      StaleIfRowsKept(s, s', i);
    } else if c.Trash? {
      StaleAfterTrash(s, c.caller, c.entry, c.newItem, s', i);
    } else if c.Restore? {
      StaleAfterRestore(s, c.caller, c.item, c.destination, s', i);
    } else {
      RowsKeepFlags(s, c, s', i);
    }
  }

  lemma CopyKeepsRows(s: State, caller: OwnerId, source: Id, destination: Id, newName: Option<EntryName>,
                      rootId: Id, s': State)
    requires CopyFolderNext(s, caller, source, destination, newName, rootId, s')
    ensures s'.trash == s.trash && forall x | x in s.entries :: x in s'.entries && s'.entries[x] == s.entries[x]
  {
    var name, f, origin := CopyWitness(s, caller, source, destination, newName, rootId, s');
    var rooted := WithCopyRoot(s, source, destination, name, rootId);
    assert forall x | x in s.entries :: x in rooted && rooted[x] == s.entries[x];
  }

  lemma StaleIfRowsKept(s: State, s': State, i: Id)
    requires s'.trash == s.trash && forall x | x in s.entries :: x in s'.entries && s'.entries[x] == s.entries[x]
    requires i in s.trash && s.trash[i].entry in s.entries
    ensures Stale(s', i) <==> Stale(s, i)
  {
  }

  lemma StaleAfterRestore(s: State, caller: OwnerId, item: Id, destination: Option<Id>, s': State, i: Id)
    requires RestoreStep(s, caller, item, destination) == Ok(s') && i in s'.trash
    requires forall k | k in s.trash :: s.trash[k].entry in s.entries
    ensures item in s.trash && i in s.trash
    ensures Stale(s', i) <==> Stale(s, i) || s.trash[i].entry in Subtree(s.entries, s.trash[item].entry)
  {
    RestoreOutcome(s, caller, item, destination, s');
  }

  lemma StaleAfterTrash(s: State, caller: OwnerId, entry: Id, newItem: Id, s': State, i: Id)
    requires TrashStep(s, caller, entry, newItem) == Ok(s') && s' != s && i in s'.trash
    requires forall k | k in s.trash :: s.trash[k].entry in s.entries
    ensures Stale(s', i) <==> Stale(s, i) && s.trash[i].entry !in Subtree(s.entries, entry)
  {
    SubtreeHasRoot(s.entries, entry);
    TrashOutcome(s, caller, entry, newItem, s');
  }

  lemma RowsKeepFlags(s: State, c: Command, s': State, i: Id)
    requires !c.CopyFolder? && !c.Trash? && !c.Restore?
    requires Sound(s) && Step(s, c) == Ok(s') && i in s'.trash
    ensures i in s.trash && s'.trash[i] == s.trash[i] && (Stale(s', i) <==> Stale(s, i))
  {
  }

  /** No command removes a stale item: neither its own restore or purge, nor a purge above its entry. */
  lemma StaleItemKept(s: State, c: Command, s': State, i: Id)
    requires Valid(s) && Next(s, c, s') && Stale(s, i)
    ensures i in s'.trash && s'.trash[i] == s.trash[i]
  {
    if c.Purge? && s' != s {
      TrashedBelow(s.entries, s.trash[c.item].entry);
    }
  }

  /**
   Restoring a folder re-activates entries that had been trashed on their own, but leaves
   their items behind; in the new state none of them can be trashed.
   */
  lemma RestoreLeavesStaleItems(s: State, caller: OwnerId, item: Id, destination: Option<Id>, s': State,
                                other: Id, newItem: Id)
    requires Valid(s) && RestoreStep(s, caller, item, destination) == Ok(s')
    requires other in s.trash && other != item && s.trash[other].entry in Subtree(s.entries, s.trash[item].entry)
    requires newItem !in s'.trash
    ensures other in s'.trash && Active(s'.entries, s.trash[other].entry)
    ensures TrashStep(s', caller, s.trash[other].entry, newItem) == Err(Constraint)
  {
    StepKeeps(s, Restore(caller, item, destination), s');
    RestoreOutcome(s, caller, item, destination, s');
    StaleItem(s, item, RestoreTo(s, item, destination), s', other);
    TrashRefusedIff(s', caller, s.trash[other].entry, newItem);
  }

  lemma StaleItem(s: State, item: Id, d: Id, s': State, other: Id)
    requires Linked(s.entries) && item in s.trash && other in s.trash && other != item
    requires RestoredRows(s.entries, s.trash[item].entry, d, s'.entries) && s'.trash == s.trash - {item}
    requires s.trash[other].entry in Subtree(s.entries, s.trash[item].entry)
    ensures other in s'.trash && HasItem(s', s.trash[other].entry)
    ensures OwnedActive(s'.entries, s.trash[other].entry, s.entries[s.trash[item].entry].owner)
    ensures s'.entries[s.trash[other].entry].parent.Some?
  {
    RevivedRow(s.entries, s.trash[item].entry, d, s'.entries, s.trash[other].entry);
    assert s'.trash[other].entry == s.trash[other].entry;
  }

  lemma RevivedRow(m: Entries, x: Id, d: Id, m': Entries, y: Id)
    requires Linked(m) && RestoredRows(m, x, d, m') && y in Subtree(m, x)
    ensures y in m' && !m'[y].deleted && m'[y].parent.Some? && m'[y].owner == m[x].owner
  {
    SubtreeStepIfBelow(m, x, y);
    SameOwnerBelow(m, x, y);
  }

  lemma SubtreeStepIfBelow(m: Entries, a: Id, x: Id)
    requires x in m && x in Subtree(m, a)
    ensures x == a || m[x].parent.Some?
  {
    if x != a {
      SubtreeStep(m, a, x);
    }
  }

  lemma SameOwnerBelow(m: Entries, a: Id, x: Id)
    requires Linked(m) && a in m && x in Subtree(m, a)
    ensures m[x].owner == m[a].owner
  {
    var same := set y | y in m && m[y].owner == m[a].owner;
    assert forall y | y in m :: ParentOk(m, y);
    var n: nat :| Up(m, x, n) == Some(a);
    SubtreeLeast(m, a, same, x, n);
  }

  // ---------------------------------------------------------------------------------
  // Trash, then restore
  // ---------------------------------------------------------------------------------

  /**
   Restoring a freshly trashed entry to where it was gives back every row and every older
   item, except that entries below it which had been in the trash before come back active
   too; it is refused only when the unique index does not admit those.
   */
  lemma TrashThenRestore(s: State, caller: OwnerId, entry: Id, newItem: Id, s1: State)
    requires Valid(s) && OwnedActive(s.entries, entry, caller) && TrashStep(s, caller, entry, newItem) == Ok(s1)
    ensures var revived := SetDeleted(s.entries, Subtree(s.entries, entry), false);
            RestoreStep(s1, caller, newItem, None)
            == if UniqueSiblings(revived) then Ok(State(revived, s.trash, s.objects)) else Err(Constraint)
  {
    TrashOutcome(s, caller, entry, newItem, s1);
    TrashedRows(s.entries, entry, s1.entries);
    var p := s.entries[entry].parent.value;
    var after := RestoreAfterTrash(s.trash, s1, caller, entry, p, newItem);
    BackToRevived(s.entries, entry, s1.entries, after);
    RevivedCommit(s, entry, p, after);
  }

  /** Restoring the newest item offers the re-attached rows together with the older items. */
  lemma RestoreAfterTrash(older: map<Id, TrashItem>, s1: State, caller: OwnerId, entry: Id, p: Id, newItem: Id)
    returns (after: Entries)
    requires newItem !in older && s1.trash == older[newItem := TrashItem(entry, p, caller)]
    requires entry in s1.entries && s1.entries[entry].deleted && s1.entries[entry].owner == caller
    requires OwnedFolder(s1.entries, p, caller)
    requires !NameTaken(s1.entries, p, s1.entries[entry].name.normalized, Some(entry))
    ensures RestoredRows(s1.entries, entry, p, after)
    ensures RestoreStep(s1, caller, newItem, None) == Commit(State(after, older, s1.objects))
  {
    after := AcceptedRestore(s1, caller, newItem, None);
    assert s1.trash - {newItem} == older;
  }

  lemma RevivedCommit(s: State, entry: Id, p: Id, after: Entries)
    requires UniqueRoots(s.entries) && UniqueTrash(s.trash) && RootsAreActiveFolders(s.entries)
    requires RestoredRows(s.entries, entry, p, after)
    ensures Commit(State(after, s.trash, s.objects))
            == if UniqueSiblings(after) then Ok(State(after, s.trash, s.objects)) else Err(Constraint)
  {
    RevivedRootsUnique(s.entries, entry, p, after);
  }

  lemma TrashOutcome(s: State, caller: OwnerId, entry: Id, newItem: Id, s1: State)
    requires OwnedActive(s.entries, entry, caller) && TrashStep(s, caller, entry, newItem) == Ok(s1)
    ensures s.entries[entry].parent.Some? && newItem !in s.trash
    ensures s1 == State(SetDeleted(s.entries, Subtree(s.entries, entry), true),
                        s.trash[newItem := TrashItem(entry, s.entries[entry].parent.value, caller)], s.objects)
  {
  }

  lemma BackToRevived(m: Entries, entry: Id, m1: Entries, after: Entries)
    requires Active(m, entry) && m[entry].parent.Some? && m1 == SetDeleted(m, Subtree(m, entry), true)
    requires Subtree(m1, entry) == Subtree(m, entry)
    requires RestoredRows(m1, entry, m[entry].parent.value, after)
    ensures after == SetDeleted(m, Subtree(m, entry), false)
    ensures RestoredRows(m, entry, m[entry].parent.value, after)
  {
    var back := SetDeleted(m, Subtree(m, entry), false);
    forall y | y in m
      ensures after[y] == back[y]
    {
      assert after[y] == m1[y].(parent := if y == entry then m[entry].parent else m1[y].parent,
                                deleted := m1[y].deleted && y !in Subtree(m1, entry));
    }
    assert after.Keys == back.Keys;
  }

  /** After trashing, the old parent is still active, the name there is free and the subtree is the same. */
  lemma TrashedRows(m: Entries, entry: Id, m1: Entries)
    requires TreeShaped(m) && UniqueSiblings(m) && Active(m, entry) && m[entry].parent.Some?
    requires m1 == SetDeleted(m, Subtree(m, entry), true)
    ensures Subtree(m1, entry) == Subtree(m, entry) && m1[entry].deleted
    ensures OwnedFolder(m1, m[entry].parent.value, m[entry].owner)
    ensures !NameTaken(m1, m[entry].parent.value, m[entry].name.normalized, Some(entry))
  {
    var p := m[entry].parent.value;
    assert ParentOk(m, entry);
    SubtreeHasRoot(m, entry);
    ReparentSubtree(m, entry, m1);
    if p in Subtree(m, entry) {
      var n: nat :| Up(m, p, n) == Some(entry);
      NoCycle(m, entry, n + 1);
    }
  }

  /** A fully active subtree comes back exactly as it was. */
  lemma TrashThenRestoreIsIdentity(s: State, caller: OwnerId, entry: Id, newItem: Id, s1: State)
    requires Valid(s) && OwnedActive(s.entries, entry, caller) && TrashStep(s, caller, entry, newItem) == Ok(s1)
    requires forall x | x in Subtree(s.entries, entry) :: !s.entries[x].deleted
    ensures RestoreStep(s1, caller, newItem, None) == Ok(s)
  {
    TrashThenRestore(s, caller, entry, newItem, s1);
    assert SetDeleted(s.entries, Subtree(s.entries, entry), false) == s.entries;
  }

  // ---------------------------------------------------------------------------------
  // Folder copy
  // ---------------------------------------------------------------------------------

  /** Inserting the fresh root adds it to the copied rows only if it landed inside the source. */
  lemma RootedSubtree(s: State, source: Id, destination: Id, name: EntryName, rootId: Id)
    requires Linked(s.entries) && source in s.entries && destination in s.entries && rootId !in s.entries
    ensures var inside := destination in Subtree(s.entries, source);
            ActiveSubtree(WithCopyRoot(s, source, destination, name, rootId), source)
            == ActiveSubtree(s.entries, source) + (if inside then {rootId} else {})
  {
    var m := s.entries;
    var rooted := WithCopyRoot(s, source, destination, name, rootId);
    ParentsPresent(m);
    SubtreeHasRoot(m, source);
    SubtreeHasRoot(rooted, source);
    SubtreeClosed(m, source);
    SubtreeClosed(rooted, source);
    assert forall y | y in m :: y in rooted && rooted[y] == m[y];
    forall x | x in m
      ensures x in Subtree(rooted, source) <==> x in Subtree(m, source)
    {
      if x in Subtree(m, source) {
        var n: nat :| Up(m, x, n) == Some(source);
        SubtreeLeast(m, source, Subtree(rooted, source), x, n);
      }
      if x in Subtree(rooted, source) {
        var n: nat :| Up(rooted, x, n) == Some(source);
        SubtreeLeast(rooted, source, Subtree(m, source) + {rootId}, x, n);
      }
    }
    SubtreeStep(rooted, source, rootId);
    assert destination in Subtree(rooted, source) <==> Below(rooted, destination, source);
  }

  /** The copies are exactly what hangs below the fresh root afterwards. */
  lemma CopyIsWholeSubtree(before: Entries, source: Id, f: map<Id, Id>, origin: map<Id, Id>, after: Entries)
    requires CopySetting(before, source, f, origin, after) && Linked(before) && Acyclic(before)
    ensures Subtree(after, f[source]) == f.Values == origin.Keys + {f[source]}
  {
    var top := f[source];
    var copies := origin.Keys + {top};
    CopiesAreValues(before, source, f, origin, after);
    SubtreeHasRoot(after, top);
    var rank: Id -> nat :| Ranked(before, rank);
    forall y | y in copies
      ensures y in Subtree(after, top)
    {
      CopyBelowTop(before, source, f, origin, after, rank, if y == top then source else origin[y]);
    }
    forall y | y in after && after[y].parent.Some? && after[y].parent.value in copies
      ensures y in copies
    {
      assert y in before ==> ParentOk(before, y);
    }
    forall y | y in Subtree(after, top)
      ensures y in copies
    {
      var n: nat :| Up(after, y, n) == Some(top);
      SubtreeLeast(after, top, copies, y, n);
    }
  }

  lemma CopiesAreValues(before: Entries, source: Id, f: map<Id, Id>, origin: map<Id, Id>, after: Entries)
    requires CopySetting(before, source, f, origin, after)
    ensures f.Values == origin.Keys + {f[source]}
  {
    forall v
      ensures v in f.Values <==> v in origin.Keys + {f[source]}
    {
      if v in f.Values {
        var c :| c in f && f[c] == v;
      }
      if v in origin {
        assert f[origin[v]] == v;
      }
    }
  }

  lemma {:induction false} CopyBelowTop(before: Entries, source: Id, f: map<Id, Id>, origin: map<Id, Id>,
                                        after: Entries, rank: Id -> nat, c: Id)
    requires CopySetting(before, source, f, origin, after) && Ranked(before, rank) && c in f
    ensures f[c] in Subtree(after, f[source])
    decreases rank(c)
  {
    if c == source {
      SubtreeHasRoot(after, f[source]);
    } else {
      assert CopyOf(before, f, c, after[f[c]]);
      CopyBelowTop(before, source, f, origin, after, rank, before[c].parent.value);
      SubtreeClosed(after, f[source]);
    }
  }

  /** A one-to-one correspondence between rows that preserves owner, kind, storage object, name and parent. */
  ghost predicate Isomorphic(m: Entries, source: Id, rows: set<Id>, f: map<Id, Id>, m': Entries) {
    && f.Keys == rows && f.Values <= m'.Keys && rows <= m.Keys
    && (forall c, d | c in f && d in f && f[c] == f[d] :: c == d)
    && (forall c | c in rows && c != source ::
          m'[f[c]].owner == m[c].owner && m'[f[c]].kind == m[c].kind && m'[f[c]].name == m[c].name
          && m'[f[c]].deleted == m[c].deleted
          && m[c].parent.Some? && m[c].parent.value in f && m'[f[c]].parent == Some(f[m[c].parent.value]))
  }

  /** The row at the top of a folder copy: the chosen name, below the destination, active. */
  function FreshRoot(source: Entry, destination: Id, newName: Option<EntryName>): Entry {
    Entry(source.owner, Some(destination), Folder, CopiedName(source, newName), false)
  }

  /** What every folder copy leaves, wherever the destination lies. */
  lemma CopyShape(s: State, caller: OwnerId, source: Id, destination: Id, newName: Option<EntryName>,
                  rootId: Id, s': State)
    returns (rooted: Entries, f: map<Id, Id>)
    requires Linked(s.entries) && Acyclic(s.entries)
    requires CopyFolderNext(s, caller, source, destination, newName, rootId, s')
    ensures source in s.entries && rootId !in s.entries && source in f && f[source] == rootId
    ensures rooted == s.entries[rootId := FreshRoot(s.entries[source], destination, newName)]
    ensures forall x | x in rooted :: x in s'.entries && s'.entries[x] == rooted[x]
    ensures s'.objects == s.objects && s'.trash == s.trash
    ensures Isomorphic(rooted, source, f.Keys, f, s'.entries)
    ensures Subtree(s'.entries, rootId) == f.Values == s'.entries.Keys - s.entries.Keys
    ensures f.Keys == ActiveSubtree(s.entries, source)
                      + (if destination in Subtree(s.entries, source) then {rootId} else {})
  {
    var name: EntryName, origin: map<Id, Id>;
    name, f, origin := CopyWitness(s, caller, source, destination, newName, rootId, s');
    rooted := WithCopyRoot(s, source, destination, name, rootId);
    CopyRootSetting(s, source, destination, name, rootId, f, origin, s'.entries);
    CopyShapeBelow(s, source, destination, name, rootId, f, origin, s'.entries);
    RootedSubtree(s, source, destination, name, rootId);
    CopyIsIsomorphic(source, rooted, f, origin, s'.entries);
    NewRowsAreCopies(s.entries, rooted, source, f, origin, s'.entries);
  }

  lemma CopyShapeBelow(s: State, source: Id, destination: Id, name: EntryName, rootId: Id,
                       f: map<Id, Id>, origin: map<Id, Id>, after: Entries)
    requires Linked(s.entries) && Acyclic(s.entries) && source in s.entries && destination in s.entries
    requires rootId !in s.entries && source in f && f[source] == rootId
    requires CopySetting(WithCopyRoot(s, source, destination, name, rootId), source, f, origin, after)
    requires Linked(WithCopyRoot(s, source, destination, name, rootId))
    ensures Subtree(after, rootId) == f.Values == origin.Keys + {rootId}
  {
    RootedAcyclic(s, source, destination, name, rootId);
    CopyIsWholeSubtree(WithCopyRoot(s, source, destination, name, rootId), source, f, origin, after);
  }

  lemma RootedAcyclic(s: State, source: Id, destination: Id, name: EntryName, rootId: Id)
    requires Linked(s.entries) && Acyclic(s.entries) && source in s.entries
    requires destination in s.entries && rootId !in s.entries
    ensures Acyclic(WithCopyRoot(s, source, destination, name, rootId))
  {
    ParentsPresent(s.entries);
    var rank: Id -> nat :| Ranked(s.entries, rank);
    var rank': Id -> nat := x => if x == rootId then rank(destination) + 1 else rank(x);
    assert Ranked(WithCopyRoot(s, source, destination, name, rootId), rank');
  }

  /**
   Copying a folder to a place outside it leaves every old row as it was, creates no storage
   object, and hangs below the destination a subtree isomorphic to the active part of the source.
   */
  lemma CopyOutsideIsIsomorphic(s: State, caller: OwnerId, source: Id, destination: Id,
                                newName: Option<EntryName>, rootId: Id, s': State) returns (f: map<Id, Id>)
    requires Linked(s.entries) && Acyclic(s.entries)
    requires CopyFolderNext(s, caller, source, destination, newName, rootId, s')
    requires destination !in Subtree(s.entries, source)
    ensures forall x | x in s.entries :: x in s'.entries && s'.entries[x] == s.entries[x]
    ensures s'.objects == s.objects && s'.trash == s.trash
    ensures Isomorphic(s.entries, source, ActiveSubtree(s.entries, source), f, s'.entries)
    ensures source in s.entries && source in f && f[source] == rootId && rootId in s'.entries
    ensures s'.entries[rootId] == FreshRoot(s.entries[source], destination, newName)
    ensures Subtree(s'.entries, rootId) == f.Values == s'.entries.Keys - s.entries.Keys
  {
    var rooted: Entries;
    rooted, f := CopyShape(s, caller, source, destination, newName, rootId, s');
  }

  lemma NewRowsAreCopies(m: Entries, rooted: Entries, source: Id, f: map<Id, Id>, origin: map<Id, Id>, after: Entries)
    requires CopySetting(rooted, source, f, origin, after) && f[source] !in m && f[source] in rooted
    requires rooted == m[f[source] := rooted[f[source]]]
    ensures after.Keys - m.Keys == origin.Keys + {f[source]}
    ensures forall x | x in m :: x in after && after[x] == m[x]
    ensures f[source] in after && after[f[source]] == rooted[f[source]]
  {
  }

  lemma CopyIsIsomorphic(source: Id, rooted: Entries, f: map<Id, Id>, origin: map<Id, Id>, after: Entries)
    requires CopySetting(rooted, source, f, origin, after)
    ensures Isomorphic(rooted, source, f.Keys, f, after)
  {
    CopiesAreValues(rooted, source, f, origin, after);
    forall c | c in f && c != source
      ensures f[c] in after && CopyOf(rooted, f, c, after[f[c]])
    {
      assert CopyOf(rooted, f, c, after[f[c]]);
    }
  }

  /**
   Into itself, the copy is an isomorphic image of the active source subtree together with the
   fresh root that was inserted first, and of nothing else.
   */
  lemma CopyInsideAddsFreshRoot(s: State, caller: OwnerId, source: Id, destination: Id,
                                newName: Option<EntryName>, rootId: Id, s': State)
    returns (rooted: Entries, f: map<Id, Id>)
    requires Linked(s.entries) && Acyclic(s.entries)
    requires CopyFolderNext(s, caller, source, destination, newName, rootId, s')
    requires destination in Subtree(s.entries, source)
    ensures forall x | x in s.entries :: x in s'.entries && s'.entries[x] == s.entries[x]
    ensures s'.objects == s.objects && s'.trash == s.trash
    ensures source in s.entries && rootId in s'.entries
    ensures s'.entries[rootId] == FreshRoot(s.entries[source], destination, newName)
    ensures rooted == s.entries[rootId := s'.entries[rootId]]
    ensures Isomorphic(rooted, source, ActiveSubtree(s.entries, source) + {rootId}, f, s'.entries)
    ensures source in f && f[source] == rootId
    ensures Subtree(s'.entries, rootId) == f.Values == s'.entries.Keys - s.entries.Keys
    ensures |s'.entries.Keys - s.entries.Keys| == |ActiveSubtree(s.entries, source)| + 1
  {
    rooted, f := CopyShape(s, caller, source, destination, newName, rootId, s');
    assert rootId !in ActiveSubtree(s.entries, source);
    InjectiveImageSize(f);
  }

  lemma {:induction false} InjectiveImageSize(f: map<Id, Id>)
    requires forall c, d | c in f && d in f && f[c] == f[d] :: c == d
    ensures |f.Values| == |f.Keys|
    decreases |f|
  {
    if f.Keys != {} {
      var c :| c in f;
      var g := map d | d in f && d != c :: f[d];
      assert g.Keys == f.Keys - {c};
      forall v
        ensures v in f.Values <==> v in g.Values + {f[c]}
      {
        if v in f.Values {
          var d :| d in f && f[d] == v;
          assert d != c ==> d in g && g[d] == v;
        }
        if v in g.Values {
          var d :| d in g && g[d] == v;
          assert d in f && f[d] == v;
        }
        assert c in f;
      }
      assert f.Values == g.Values + {f[c]};
      InjectiveImageSize(g);
    } else {
      assert f.Values == {};
    }
  }

  // ---------------------------------------------------------------------------------
  // Recursive queries end exactly when the root is not on a cycle
  // ---------------------------------------------------------------------------------

  /** What the n-th round of the recursive query adds. */
  ghost function Level(m: Entries, a: Id, n: nat): set<Id> {
    set x | x in m && Up(m, x, n) == Some(a)
  }

  ghost predicate QueryEnds(m: Entries, a: Id) {
    exists n: nat :: Level(m, a, n) == {}
  }

  lemma {:induction false} UpAdd(m: Entries, x: Id, i: nat, j: nat)
    requires Up(m, x, i).Some?
    ensures Up(m, x, i + j) == Up(m, Up(m, x, i).value, j)
    decreases i
  {
    if i > 0 {
      UpAdd(m, m[x].parent.value, i - 1, j);
    }
  }

  lemma {:induction false} UpPrefix(m: Entries, x: Id, i: nat, n: nat)
    requires Linked(m) && x in m && i <= n && Up(m, x, n).Some?
    ensures Up(m, x, i).Some? && Up(m, x, i).value in m
    decreases i
  {
    if i > 0 {
      assert ParentOk(m, x);
      UpPrefix(m, m[x].parent.value, i - 1, n - 1);
    }
  }

  lemma {:induction false} Pigeonhole(chain: seq<Id>, holes: set<Id>) returns (i: nat, j: nat)
    requires |chain| > |holes| && forall k | 0 <= k < |chain| :: chain[k] in holes
    ensures i < j < |chain| && chain[i] == chain[j]
    decreases |chain|
  {
    var last := |chain| - 1;
    if k :| 0 <= k < last && chain[k] == chain[last] {
      i, j := k, last;
    } else {
      i, j := Pigeonhole(chain[..last], holes - {chain[last]});
    }
  }

  lemma CycleFeedsEveryLevel(m: Entries, a: Id, k: nat, n: nat)
    requires Linked(m) && a in m && k > 0 && Up(m, a, k) == Some(a)
    ensures Level(m, a, n) != {}
  {
    AroundCycle(m, a, k, n);
    TimesAtLeast(k, n);
    UpPrefix(m, a, k * n - n, k * n);
    UpAdd(m, a, k * n - n, n);
    assert Up(m, a, k * n - n).value in Level(m, a, n);
  }

  lemma {:induction false} AroundCycle(m: Entries, a: Id, k: nat, n: nat)
    requires Up(m, a, k) == Some(a)
    ensures Up(m, a, k * n) == Some(a)
    decreases n
  {
    if n > 0 {
      AroundCycle(m, a, k, n - 1);
      UpAdd(m, a, k, k * (n - 1));
      assert k + k * (n - 1) == k * n;
    } else {
      assert k * n == 0;
    }
  }

  lemma {:induction false} TimesAtLeast(k: nat, n: nat)
    requires k > 0
    ensures k * n >= n
    decreases n
  {
    if n > 0 {
      TimesAtLeast(k, n - 1);
      assert k * n == k * (n - 1) + k;
    }
  }

  /** A level as deep as the table is large forces the root onto a cycle. */
  lemma DeepLevelNeedsCycle(m: Entries, a: Id, x: Id) returns (k: nat)
    requires Linked(m) && x in m && Up(m, x, |m|) == Some(a)
    ensures k > 0 && Up(m, a, k) == Some(a)
  {
    var depth := |m|;
    forall i | 0 <= i <= depth
      ensures Up(m, x, i).Some? && Up(m, x, i).value in m
    {
      UpPrefix(m, x, i, depth);
    }
    var chain := seq(depth + 1, i requires 0 <= i <= depth => Up(m, x, i).value);
    var i, j := Pigeonhole(chain, m.Keys);
    k := j - i;
    var y := chain[i];
    UpAdd(m, x, i, k);
    UpAdd(m, x, i, depth - i);
    UpAdd(m, y, k, depth - i);
    UpAdd(m, y, depth - i, k);
  }

  ghost predicate OnCycle(m: Entries, a: Id) {
    exists k: nat :: k > 0 && Up(m, a, k) == Some(a)
  }

  /** A recursive query that keeps duplicates ends if and only if its root is not its own ancestor. */
  lemma QueryEndsIff(m: Entries, a: Id)
    requires Linked(m) && a in m
    ensures QueryEnds(m, a) <==> !OnCycle(m, a)
  {
    if OnCycle(m, a) {
      var k: nat :| k > 0 && Up(m, a, k) == Some(a);
      forall n: nat
        ensures Level(m, a, n) != {}
      {
        CycleFeedsEveryLevel(m, a, k, n);
      }
    } else if Level(m, a, |m|) != {} {
      var x :| x in Level(m, a, |m|);
      var k := DeepLevelNeedsCycle(m, a, x);
    }
  }

  /** In every reachable state every recursive query ends. */
  lemma RunsKeepQueriesFinite(states: seq<State>, commands: seq<Command>, i: nat, a: Id)
    requires IsRun(states, commands) && i < |states| && a in states[i].entries
    ensures QueryEnds(states[i].entries, a)
  {
    RunsFormTrees(states, commands, i);
    QueryEndsIff(states[i].entries, a);
  }
}
