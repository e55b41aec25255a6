/**
 What each tree command answers and changes, said on the rows themselves: which check
 decides, which rows are new, altered or gone, and that everything else stays.
 */
module CommandEffects {
  import opened Outcomes
  import opened StorageTree
  import opened StorageTreeProofs
  import opened StorageTreeResults

  /** Apart from the row `x`, which may be new, nothing differs between the two states. */
  ghost predicate OnlyRow(s: State, s': State, x: Id) {
    && s'.entries.Keys == s.entries.Keys + {x}
    && (forall y | y in s.entries && y != x :: s'.entries[y] == s.entries[y])
    && s'.trash == s.trash
  }

  // ---------------------------------------------------------------------------------
  // New rows
  // ---------------------------------------------------------------------------------

  /** An owner gets a root exactly once. */
  lemma ProvisionRootAnswers(s: State, owner: OwnerId, name: EntryName, newId: Id)
    requires Valid(s) && newId !in s.entries
    ensures var r := ProvisionRootStep(s, owner, name, newId);
            && (r.Ok? <==> forall x | x in s.entries && s.entries[x].parent.None? :: s.entries[x].owner != owner)
            && (r.Err? ==> r.error == Constraint)
  {
    var root := Entry(owner, None, Folder, name, false);
    var m' := s.entries[newId := root];
    if x :| x in s.entries && s.entries[x].parent.None? && s.entries[x].owner == owner {
      assert m'[x].parent == m'[newId].parent && x != newId;
    } else {
      assert UniqueRoots(m') && UniqueSiblings(m');
    }
  }

  lemma ProvisionRootEffect(s: State, owner: OwnerId, name: EntryName, newId: Id, s': State)
    requires ProvisionRootStep(s, owner, name, newId) == Ok(s')
    ensures newId !in s.entries && OnlyRow(s, s', newId) && s'.objects == s.objects
    ensures s'.entries[newId] == Entry(owner, None, Folder, name, false)
  {
  }

  lemma CreateFolderAnswers(s: State, caller: OwnerId, parent: Id, name: EntryName, newId: Id)
    requires Valid(s) && newId !in s.entries
    ensures var r, m := CreateFolderStep(s, caller, parent, name, newId), s.entries;
            if !(parent in m && m[parent].owner == caller && m[parent].kind == Folder && !m[parent].deleted) then
              r == Err(NotFound)
            else if exists x | x in m :: m[x].parent == Some(parent) && !m[x].deleted
                                         && m[x].name.normalized == name.normalized then
              r == Err(NameConflict)
            else r.Ok?
  {
    NameChecksSuffice(s, Command.CreateFolder(caller, parent, name, newId));
  }

  lemma CreateFolderEffect(s: State, caller: OwnerId, parent: Id, name: EntryName, newId: Id, s': State)
    requires CreateFolderStep(s, caller, parent, name, newId) == Ok(s')
    ensures newId !in s.entries && OnlyRow(s, s', newId) && s'.objects == s.objects
    ensures s'.entries[newId] == Entry(caller, Some(parent), Folder, name, false)
  {
  }

  lemma UploadAnswers(s: State, caller: OwnerId, parent: Id, name: EntryName, newId: Id, objectId: ObjectId)
    requires Valid(s) && newId !in s.entries && objectId !in s.objects
    ensures var r, m := UploadStep(s, caller, parent, name, newId, objectId), s.entries;
            if !(parent in m && m[parent].owner == caller && m[parent].kind == Folder && !m[parent].deleted) then
              r == Err(NotFound)
            else if exists x | x in m :: m[x].parent == Some(parent) && !m[x].deleted
                                         && m[x].name.normalized == name.normalized then
              r == Err(NameConflict)
            else r.Ok?
  {
    NameChecksSuffice(s, Command.CompleteUpload(caller, parent, name, newId, objectId));
  }

  /** The new file carries an object that no row carried before. */
  lemma UploadEffect(s: State, caller: OwnerId, parent: Id, name: EntryName, newId: Id, objectId: ObjectId, s': State)
    requires Valid(s) && UploadStep(s, caller, parent, name, newId, objectId) == Ok(s')
    ensures newId !in s.entries && OnlyRow(s, s', newId)
    ensures s'.entries[newId] == Entry(caller, Some(parent), File(Some(objectId)), name, false)
    ensures objectId !in s.objects && s'.objects == s.objects + {objectId}
    ensures forall x | x in s.entries :: s.entries[x].kind != File(Some(objectId))
  {
    forall x | x in s.entries
      ensures s.entries[x].kind != File(Some(objectId))
    {
      assert s.entries[x].kind.File? ==> s.entries[x].kind.version.value in s.objects;
    }
  }

  // ---------------------------------------------------------------------------------
  // One row altered
  // ---------------------------------------------------------------------------------

  lemma RenameAnswers(s: State, caller: OwnerId, entry: Id, name: EntryName)
    requires Valid(s)
    ensures var r, m := RenameStep(s, caller, entry, name), s.entries;
            if !(entry in m && m[entry].owner == caller && !m[entry].deleted) then r == Err(NotFound)
            else if m[entry].parent.None? then r == Err(InvalidState)
            else if exists x | x in m :: x != entry && m[x].parent == m[entry].parent && !m[x].deleted
                                         && m[x].name.normalized == name.normalized then
              r == Err(NameConflict)
            else r.Ok?
  {
    NameChecksSuffice(s, Command.Rename(caller, entry, name));
  }

  lemma RenameEffect(s: State, caller: OwnerId, entry: Id, name: EntryName, s': State)
    requires RenameStep(s, caller, entry, name) == Ok(s')
    ensures entry in s.entries && OnlyRow(s, s', entry) && s'.objects == s.objects
    ensures var e, e' := s.entries[entry], s'.entries[entry];
            && e'.name == name
            && e'.owner == e.owner && e'.parent == e.parent && e'.kind == e.kind && e'.deleted == e.deleted
  {
  }

  /** A file is refused below itself as well, because nothing hangs below a file. */
  lemma MoveAnswers(s: State, caller: OwnerId, entry: Id, destination: Id)
    requires Valid(s)
    ensures var r, m := MoveStep(s, caller, entry, destination), s.entries;
            if !(entry in m && m[entry].owner == caller && !m[entry].deleted) then r == Err(NotFound)
            else if m[entry].parent.None? || entry == destination then r == Err(InvalidMove)
            else if !(destination in m && m[destination].owner == caller && m[destination].kind == Folder
                      && !m[destination].deleted) then
              r == Err(NotFound)
            else if exists n: nat :: Up(m, destination, n) == Some(entry) then r == Err(InvalidMove)
            else if exists x | x in m :: x != entry && m[x].parent == Some(destination) && !m[x].deleted
                                         && m[x].name.normalized == m[entry].name.normalized then
              r == Err(NameConflict)
            else r.Ok?
  {
    NameChecksSuffice(s, Command.Move(caller, entry, destination));
    if entry in s.entries && entry != destination && destination in s.entries && s.entries[entry].kind.File? {
      DestinationOutside(s.entries, entry, destination);
    }
    assert Below(s.entries, destination, entry) <==> exists n: nat :: Up(s.entries, destination, n) == Some(entry);
  }

  /** Only the parent changes, and with it where everything below the entry hangs. */
  lemma MoveEffect(s: State, caller: OwnerId, entry: Id, destination: Id, s': State)
    requires Valid(s) && MoveStep(s, caller, entry, destination) == Ok(s')
    ensures entry in s.entries && OnlyRow(s, s', entry) && s'.objects == s.objects
    ensures var e, e' := s.entries[entry], s'.entries[entry];
            && e'.parent == Some(destination)
            && e'.owner == e.owner && e'.name == e.name && e'.kind == e.kind && e'.deleted == e.deleted
    ensures forall x | x in s.entries && Below(s.entries, x, entry) ::
              Below(s'.entries, x, entry) && Below(s'.entries, x, destination)
  {
    ReparentSubtree(s.entries, entry, s'.entries);
    SubtreeClosed(s'.entries, destination);
    SubtreeHasRoot(s'.entries, destination);
    forall x | x in s.entries && Below(s.entries, x, entry)
      ensures Below(s'.entries, x, entry) && Below(s'.entries, x, destination)
    {
      assert x in Subtree(s.entries, entry);
      BelowParent(s'.entries, x, entry);
    }
  }

  /** What lies below an entry lies below its parent. */
  lemma BelowParent(m: Entries, x: Id, a: Id)
    requires a in m && m[a].parent.Some? && Below(m, x, a)
    ensures Below(m, x, m[a].parent.value)
  {
    var n: nat :| Up(m, x, n) == Some(a);
    UpAdd(m, x, n, 1);
    assert Up(m, a, 1) == Some(m[a].parent.value) by { assert Up(m, m[a].parent.value, 0) == m[a].parent; }
  }

  // ---------------------------------------------------------------------------------
  // Whole subtrees
  // ---------------------------------------------------------------------------------

  /** An entry that is trashed already answers with its item; below another trashed entry it has none. */
  lemma TrashAnswers(s: State, caller: OwnerId, entry: Id, newItem: Id)
    requires Valid(s) && newItem !in s.trash
    ensures var r, m := TrashStep(s, caller, entry, newItem), s.entries;
            if !(entry in m && m[entry].owner == caller) then r == Err(NotFound)
            else if m[entry].deleted then
              if exists i | i in s.trash :: s.trash[i].entry == entry then r == Ok(s) else r == Err(InvalidState)
            else if m[entry].parent.None? then r == Err(InvalidState)
            else if exists i | i in s.trash :: s.trash[i].entry == entry then r == Err(Constraint)
            else r.Ok?
  {
    if OwnedActive(s.entries, entry, caller) && s.entries[entry].parent.Some? {
      TrashRefusedIff(s, caller, entry, newItem);
    }
  }

  /** The entry and all rows below it go to the trash, listed under one new item. */
  lemma TrashEffect(s: State, caller: OwnerId, entry: Id, newItem: Id, s': State)
    requires OwnedActive(s.entries, entry, caller) && TrashStep(s, caller, entry, newItem) == Ok(s')
    ensures s'.entries.Keys == s.entries.Keys && s'.objects == s.objects
    ensures forall x | x in s.entries ::
              && s'.entries[x].deleted == (s.entries[x].deleted || Below(s.entries, x, entry))
              && s'.entries[x].(deleted := false) == s.entries[x].(deleted := false)
    ensures newItem !in s.trash && s.entries[entry].parent.Some?
    ensures s'.trash == s.trash[newItem := TrashItem(entry, s.entries[entry].parent.value, caller)]
  {
  }

  /**
   The clash that only the index finds: two other rows below the entry, with one parent and one
   normalized name, that would come back together.
   */
  lemma RestoreAnswers(s: State, caller: OwnerId, item: Id, destination: Option<Id>)
    requires Valid(s)
    ensures var r, m := RestoreStep(s, caller, item, destination), s.entries;
            if !(item in s.trash && s.trash[item].deletedBy == caller) then r == Err(NotFound)
            else
              var x := s.trash[item].entry;
              var d := if destination.Some? then destination.value else s.trash[item].originalParent;
              if !(d in m && m[d].owner == caller && m[d].kind == Folder && !m[d].deleted) then r == Err(NotFound)
              else if exists y | y in m :: y != x && m[y].parent == Some(d) && !m[y].deleted
                                           && m[y].name.normalized == m[x].name.normalized then
                r == Err(NameConflict)
              else if !m[x].deleted then r == Err(InvalidState)
              else if exists y, z | y in m && z in m :: y != z && y != x && z != x && Below(m, y, x) && Below(m, z, x)
                        && m[y].parent == m[z].parent && m[y].name.normalized == m[z].name.normalized then
                r == Err(Constraint)
              else r.Ok?
  {
    if RestoreAccepted(s, caller, item, destination) {
      RestoreRefusedIff(s, caller, item, destination);
      ClashIsBelow(s.entries, s.trash[item].entry);
    }
  }

  lemma ClashIsBelow(m: Entries, x: Id)
    ensures ClashBelow(m, x) <==>
            exists y, z | y in m && z in m :: y != z && y != x && z != x && Below(m, y, x) && Below(m, z, x)
              && m[y].parent == m[z].parent && m[y].name.normalized == m[z].name.normalized
  {
    if y, z :| y in m && z in m && y != z && y != x && z != x && Below(m, y, x) && Below(m, z, x)
               && m[y].parent == m[z].parent && m[y].name.normalized == m[z].name.normalized {
      assert y in Subtree(m, x) && z in Subtree(m, x);
    }
  }

  /** The entry hangs below the destination and everything below it is active; only its own item goes. */
  lemma RestoreEffect(s: State, caller: OwnerId, item: Id, destination: Option<Id>, s': State)
    requires RestoreStep(s, caller, item, destination) == Ok(s')
    ensures item in s.trash && s.trash[item].entry in s.entries && s'.entries.Keys == s.entries.Keys
    ensures var x := s.trash[item].entry;
            var d := if destination.Some? then destination.value else s.trash[item].originalParent;
            && s'.entries[x].parent == Some(d) && s'.entries[x].(parent := None, deleted := false)
                                               == s.entries[x].(parent := None, deleted := false)
            && (forall y | y in s.entries && y != x ::
                  s'.entries[y].(deleted := false) == s.entries[y].(deleted := false))
            && (forall y | y in s.entries ::
                  s'.entries[y].deleted == (s.entries[y].deleted && !Below(s.entries, y, x)))
    ensures item !in s'.trash && s'.trash == s.trash - {item} && s'.objects == s.objects
  {
    RestoreOutcome(s, caller, item, destination, s');
  }

  lemma PurgeAnswers(s: State, caller: OwnerId, item: Id)
    requires Valid(s)
    ensures var r, m := PurgeStep(s, caller, item), s.entries;
            if !(item in s.trash && s.trash[item].deletedBy == caller) then r == Err(NotFound)
            else if !(s.trash[item].entry in m && m[s.trash[item].entry].owner == caller) then r == Err(NotFound)
            else if !m[s.trash[item].entry].deleted then r == Err(InvalidState)
            else r.Ok?
  {
    NameChecksSuffice(s, Command.Purge(caller, item));
  }

  /** Exactly the entry and the rows below it are gone, and exactly the items that pointed at them. */
  lemma PurgeEffect(s: State, caller: OwnerId, item: Id, s': State)
    requires Valid(s) && PurgeStep(s, caller, item) == Ok(s')
    ensures item in s.trash && s.trash[item].entry in s.entries
    ensures s.trash[item].entry !in s'.entries && item !in s'.trash
    ensures var x := s.trash[item].entry;
            && (forall y :: y in s'.entries <==> y in s.entries && !Below(s.entries, y, x))
            && (forall y | y in s'.entries :: s'.entries[y] == s.entries[y])
            && (forall i :: i in s'.trash <==> i in s.trash && !Below(s.entries, s.trash[i].entry, x))
            && (forall i | i in s'.trash :: s'.trash[i] == s.trash[i])
    ensures s'.objects == s.objects
    ensures |s'.entries| == |s.entries| - |Subtree(s.entries, s.trash[item].entry)| < |s.entries|
  {
    var gone := Subtree(s.entries, s.trash[item].entry);
    SubtreeHasRoot(s.entries, s.trash[item].entry);
    forall i | i in s.trash
      ensures s.trash[i].entry in gone <==> Below(s.entries, s.trash[i].entry, s.trash[item].entry)
    {
      assert s.trash[i].entry in s.entries;
    }
    assert s'.entries.Keys == s.entries.Keys - gone;
  }

  // ---------------------------------------------------------------------------------
  // Copies
  // ---------------------------------------------------------------------------------

  /** The name a copy is asked to carry: the one given, or else the source's own. */
  lemma CopyVerdict(s: State, caller: OwnerId, source: Id, destination: Id, newName: Option<EntryName>)
    ensures var r, m := CopyChecks(s, caller, source, destination, newName), s.entries;
            if !(source in m && m[source].owner == caller && !m[source].deleted) then r == Err(NotFound)
            else if m[source].parent.None? then r == Err(InvalidState)
            else if !(destination in m && m[destination].owner == caller && m[destination].kind == Folder
                      && !m[destination].deleted) then
              r == Err(NotFound)
            else
              var name := if newName.Some? then newName.value else m[source].name;
              if exists x | x in m :: m[x].parent == Some(destination) && !m[x].deleted
                                      && m[x].name.normalized == name.normalized then
                r == Err(NameConflict)
              else r == Ok(name)
  {
  }

  /** A file copy is refused for the reasons of CopyVerdict alone. */
  lemma CopyFileAnswers(s: State, caller: OwnerId, source: Id, destination: Id, newName: Option<EntryName>, newId: Id)
    requires Valid(s) && newId !in s.entries && source in s.entries && s.entries[source].kind.File?
    ensures var r, checked := CopyFileStep(s, caller, source, destination, newName, newId),
                              CopyChecks(s, caller, source, destination, newName);
            if checked.Err? then r == Err(checked.error) else r.Ok?
  {
    NameChecksSuffice(s, Command.CopyFile(caller, source, destination, newName, newId));
    assert s.entries[source].kind.version.Some?;
  }

  /** One new row that shares the source's storage object; the source and all else stay. */
  lemma CopyFileEffect(s: State, caller: OwnerId, source: Id, destination: Id, newName: Option<EntryName>, newId: Id,
                       s': State)
    requires CopyFileStep(s, caller, source, destination, newName, newId) == Ok(s')
    ensures source in s.entries && newId !in s.entries && OnlyRow(s, s', newId) && s'.objects == s.objects
    ensures var e, copy := s.entries[source], s'.entries[newId];
            && copy.name == (if newName.Some? then newName.value else e.name)
            && copy.parent == Some(destination) && copy.owner == e.owner && !copy.deleted
            && copy.kind == e.kind && copy.kind.File? && copy.kind.version.Some?
  {
  }

  /** The root of a folder copy is a new active folder of the chosen name below the destination. */
  lemma CopyFolderRoot(s: State, caller: OwnerId, source: Id, destination: Id, newName: Option<EntryName>, rootId: Id,
                       s': State)
    requires CopyFolderNext(s, caller, source, destination, newName, rootId, s')
    ensures source in s.entries && rootId !in s.entries && rootId in s'.entries
    ensures var e, root := s.entries[source], s'.entries[rootId];
            && root.name == (if newName.Some? then newName.value else e.name)
            && root.parent == Some(destination) && root.owner == e.owner && root.kind == Folder && !root.deleted
  {
    var name, f, origin := CopyWitness(s, caller, source, destination, newName, rootId, s');
  }

  /**
   `f` maps the source to the new root, and every active row below the source, the new root
   included if it was put there, to a new row of the same owner, kind, object and name below
   the copy of its parent. There are no other new rows, and the old ones stay.
   */
  lemma CopyFolderEffect(s: State, caller: OwnerId, source: Id, destination: Id, newName: Option<EntryName>,
                         rootId: Id, s': State) returns (f: map<Id, Id>)
    requires Valid(s) && CopyFolderNext(s, caller, source, destination, newName, rootId, s')
    ensures source in f && f[source] == rootId && s'.objects == s.objects && s'.trash == s.trash
    ensures forall x | x in s.entries :: x in s'.entries && s'.entries[x] == s.entries[x]
    ensures forall x :: x in s'.entries <==> x in s.entries || x in f.Values
    ensures forall c, d | c in f && d in f && f[c] == f[d] :: c == d
    ensures forall x | x in f.Values :: x !in s.entries
    ensures forall x :: x in f <==> (x in s.entries && !s.entries[x].deleted && Below(s.entries, x, source))
                                    || (x == rootId && Below(s.entries, destination, source))
    ensures forall c | c in f && c != source ::
              && c in s'.entries && s'.entries[c].parent.Some? && s'.entries[c].parent.value in f
              && f[c] in s'.entries
              && s'.entries[f[c]] == s'.entries[c].(parent := Some(f[s'.entries[c].parent.value]))
  {
    var rooted: Entries;
    rooted, f := CopyShape(s, caller, source, destination, newName, rootId, s');
    DestinationPresent(s, caller, source, destination, newName, rootId, s');
    CopiedRows(s.entries, source, destination, rootId, f);
    CopiedColumns(rooted, source, f, s'.entries);
  }

  lemma CopiedRows(m: Entries, source: Id, destination: Id, rootId: Id, f: map<Id, Id>)
    requires destination in m && rootId !in m
    requires f.Keys == ActiveSubtree(m, source) + (if destination in Subtree(m, source) then {rootId} else {})
    ensures forall x :: x in f <==> (x in m && !m[x].deleted && Below(m, x, source))
                                    || (x == rootId && Below(m, destination, source))
  {
  }

  lemma DestinationPresent(s: State, caller: OwnerId, source: Id, destination: Id, newName: Option<EntryName>,
                           rootId: Id, s': State)
    requires CopyFolderNext(s, caller, source, destination, newName, rootId, s')
    ensures destination in s.entries
  {
  }

  lemma CopiedColumns(rooted: Entries, source: Id, f: map<Id, Id>, after: Entries)
    requires Isomorphic(rooted, source, f.Keys, f, after)
    requires forall x | x in rooted :: x in after && after[x] == rooted[x]
    ensures forall c | c in f && c != source ::
              && c in after && after[c].parent.Some? && after[c].parent.value in f && f[c] in after
              && after[f[c]] == after[c].(parent := Some(f[after[c].parent.value]))
  {
  }
}
