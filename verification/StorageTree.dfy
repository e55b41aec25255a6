/**
 The logical storage tree: the rows of `storage_entries` and `trash_items`, the effect of
 each command as one committed transaction, and what every serial run of commands keeps.

 A command that the database refuses (unique index, primary key) or that a use case
 rejects leaves the state as it was.
 */
module StorageTree {
  import opened Outcomes

  type Id = nat
  type OwnerId = nat
  type ObjectId = nat

  /** A validated name: what the user sees and the key that siblings must not share. */
  datatype EntryName = EntryName(value: string, normalized: string)

  /** A file carries the storage object of its current version, when it has one. */
  datatype Kind = Folder | File(version: Option<ObjectId>)

  datatype Entry = Entry(owner: OwnerId, parent: Option<Id>, kind: Kind, name: EntryName, deleted: bool)

  datatype TrashItem = TrashItem(entry: Id, originalParent: Id, deletedBy: OwnerId)

  type Entries = map<Id, Entry>

  datatype State = State(entries: Entries, trash: map<Id, TrashItem>, objects: set<ObjectId>)

  datatype Error = NotFound | NameConflict | InvalidMove | InvalidState | Constraint

  const EMPTY := State(map[], map[], {})

  // ---------------------------------------------------------------------------------
  // Ancestors and subtrees
  // ---------------------------------------------------------------------------------

  /** The n-th ancestor of `x`, if the chain of parents is that long. */
  ghost function Up(m: Entries, x: Id, n: nat): Option<Id>
    decreases n
  {
    if n == 0 then Some(x)
    else if x in m && m[x].parent.Some? then Up(m, m[x].parent.value, n - 1)
    else None
  }

  ghost predicate Below(m: Entries, x: Id, a: Id) {
    exists n: nat :: Up(m, x, n) == Some(a)
  }

  /** The rows a recursive query rooted at `a` selects: `a` and everything below it. */
  ghost function Subtree(m: Entries, a: Id): set<Id> {
    set x | x in m && Below(m, x, a)
  }

  predicate Active(m: Entries, x: Id) {
    x in m && !m[x].deleted
  }

  // ---------------------------------------------------------------------------------
  // The invariant
  // ---------------------------------------------------------------------------------

  /** A rank that strictly grows from parent to child: a certificate that there is no cycle. */
  ghost predicate Ranked(m: Entries, rank: Id -> nat) {
    forall x {:trigger m[x].parent} | x in m && m[x].parent.Some? :: rank(m[x].parent.value) < rank(x)
  }

  ghost predicate Acyclic(m: Entries) {
    exists rank: Id -> nat :: Ranked(m, rank)
  }

  /** The parent of a row is a folder of the same owner. */
  ghost predicate ParentOk(m: Entries, x: Id)
    requires x in m
  {
    m[x].parent.Some? ==>
      var p := m[x].parent.value;
      p in m && m[p].kind.Folder? && m[p].owner == m[x].owner
  }

  ghost predicate Linked(m: Entries) {
    forall x {:trigger ParentOk(m, x)} | x in m :: ParentOk(m, x)
  }

  ghost predicate RootsAreActiveFolders(m: Entries) {
    forall x {:trigger m[x].parent} | x in m && m[x].parent.None? :: m[x].kind.Folder? && !m[x].deleted
  }

  /** Everything below a trashed entry is trashed. */
  ghost predicate TrashClosed(m: Entries) {
    forall x {:trigger m[x].parent} | x in m && m[x].parent.Some? && m[x].parent.value in m
      && m[m[x].parent.value].deleted ::
      m[x].deleted
  }

  /** The partial unique index on (parent, normalized name) of active rows. */
  predicate UniqueSiblings(m: Entries) {
    forall x, y {:trigger m[x].name, m[y].name} | x in m && y in m && !m[x].deleted && !m[y].deleted
      && m[x].parent.Some?
                  && m[x].parent == m[y].parent && m[x].name.normalized == m[y].name.normalized :: x == y
  }

  /** The partial unique index on the owner of active rows without a parent. */
  predicate UniqueRoots(m: Entries) {
    forall x, y {:trigger m[x].parent, m[y].parent} | x in m && y in m && !m[x].deleted && !m[y].deleted
      && m[x].parent.None? && m[y].parent.None?
                  && m[x].owner == m[y].owner :: x == y
  }

  /** The unique constraint on the entry of a trash item. */
  predicate UniqueTrash(trash: map<Id, TrashItem>) {
    forall i, j | i in trash && j in trash && trash[i].entry == trash[j].entry :: i == j
  }

  predicate Constraints(s: State) {
    UniqueSiblings(s.entries) && UniqueRoots(s.entries) && UniqueTrash(s.trash)
  }

  ghost predicate FilesHaveVersions(s: State) {
    forall x {:trigger s.entries[x].kind} | x in s.entries && s.entries[x].kind.File? ::
      s.entries[x].kind.version.Some? && s.entries[x].kind.version.value in s.objects
  }

  ghost predicate TrashSound(s: State) {
    forall i | i in s.trash ::
      s.trash[i].entry in s.entries && s.entries[s.trash[i].entry].owner == s.trash[i].deletedBy
  }

  predicate HasItem(s: State, x: Id) {
    exists i | i in s.trash :: s.trash[i].entry == x
  }

  /** A trashed entry whose parent is active is listed in the trash. */
  ghost predicate TopmostListed(s: State) {
    forall x {:trigger HasItem(s, x)} | x in s.entries && s.entries[x].deleted && s.entries[x].parent.Some?
               && Active(s.entries, s.entries[x].parent.value) :: HasItem(s, x)
  }

  ghost predicate TreeShaped(m: Entries) {
    Linked(m) && RootsAreActiveFolders(m) && Acyclic(m) && TrashClosed(m)
  }

  /** What the commands keep by themselves. */
  ghost predicate Sound(s: State) {
    && TreeShaped(s.entries)
    && FilesHaveVersions(s)
    && TrashSound(s)
    && TopmostListed(s)
  }

  /** The invariant of every run; the database enforces the second half on each commit. */
  ghost predicate Valid(s: State) {
    Sound(s) && Constraints(s)
  }

  // ---------------------------------------------------------------------------------
  // Lookups the use cases make
  // ---------------------------------------------------------------------------------

  predicate OwnedActive(m: Entries, x: Id, caller: OwnerId) {
    x in m && !m[x].deleted && m[x].owner == caller
  }

  predicate OwnedFolder(m: Entries, x: Id, caller: OwnerId) {
    OwnedActive(m, x, caller) && m[x].kind.Folder?
  }

  predicate NameTaken(m: Entries, parent: Id, normalized: string, except: Option<Id>) {
    exists x {:trigger m[x].name} | x in m ::
      m[x].parent == Some(parent) && m[x].name.normalized == normalized && !m[x].deleted && Some(x) != except
  }

  function Commit(s: State): Result<State, Error> {
    if Constraints(s) then Ok(s) else Err(Constraint)
  }

  /** The update of one column over a set of rows. */
  function SetDeleted(m: Entries, rows: set<Id>, deleted: bool): Entries {
    map x | x in m :: if x in rows then m[x].(deleted := deleted) else m[x]
  }

  // ---------------------------------------------------------------------------------
  // Commands, each as one transaction
  // ---------------------------------------------------------------------------------

  function ProvisionRootStep(s: State, owner: OwnerId, name: EntryName, newId: Id): Result<State, Error> {
    if newId in s.entries then Err(Constraint)
    else Commit(s.(entries := s.entries[newId := Entry(owner, None, Folder, name, false)]))
  }

  function CreateFolderStep(s: State, caller: OwnerId, parent: Id, name: EntryName, newId: Id)
    : Result<State, Error>
  {
    if !OwnedFolder(s.entries, parent, caller) then Err(NotFound)
    else if NameTaken(s.entries, parent, name.normalized, None) then Err(NameConflict)
    else if newId in s.entries then Err(Constraint)
    else Commit(s.(entries := s.entries[newId := Entry(caller, Some(parent), Folder, name, false)]))
  }

  function RenameStep(s: State, caller: OwnerId, entry: Id, name: EntryName): Result<State, Error> {
    if !OwnedActive(s.entries, entry, caller) then Err(NotFound)
    else
      var e := s.entries[entry];
      if e.parent.None? then Err(InvalidState)
      else if NameTaken(s.entries, e.parent.value, name.normalized, Some(entry)) then Err(NameConflict)
      else Commit(s.(entries := s.entries[entry := e.(name := name)]))
  }

  ghost function MoveStep(s: State, caller: OwnerId, entry: Id, destination: Id): Result<State, Error> {
    if !OwnedActive(s.entries, entry, caller) then Err(NotFound)
    else
      var e := s.entries[entry];
      if e.parent.None? || entry == destination then Err(InvalidMove)
      else if !OwnedFolder(s.entries, destination, caller) then Err(NotFound)
      else if e.kind.Folder? && destination in Subtree(s.entries, entry) then Err(InvalidMove)
      else if NameTaken(s.entries, destination, e.name.normalized, Some(entry)) then Err(NameConflict)
      else Commit(s.(entries := s.entries[entry := e.(parent := Some(destination))]))
  }

  /** The name a copy is asked to carry. */
  function CopiedName(e: Entry, newName: Option<EntryName>): EntryName {
    if newName.Some? then newName.value else e.name
  }

  /** What both kinds of copy check first; the value is the name the copy will carry. */
  function CopyChecks(s: State, caller: OwnerId, entry: Id, destination: Id, newName: Option<EntryName>)
    : (r: Result<EntryName, Error>)
    ensures r.Ok? ==> OwnedActive(s.entries, entry, caller) && OwnedFolder(s.entries, destination, caller)
  {
    if !OwnedActive(s.entries, entry, caller) then Err(NotFound)
    else if s.entries[entry].parent.None? then Err(InvalidState)
    else if !OwnedFolder(s.entries, destination, caller) then Err(NotFound)
    else
      var name := CopiedName(s.entries[entry], newName);
      if NameTaken(s.entries, destination, name.normalized, None) then Err(NameConflict) else Ok(name)
  }

  function CopyFileStep(s: State, caller: OwnerId, entry: Id, destination: Id, newName: Option<EntryName>, newId: Id)
    : Result<State, Error>
  {
    var checked := CopyChecks(s, caller, entry, destination, newName);
    if checked.Err? then Err(checked.error)
    else
      var e := s.entries[entry];
      if e.kind.Folder? || e.kind.version.None? then Err(InvalidState)
      else if newId in s.entries then Err(Constraint)
      else Commit(s.(entries := s.entries[newId := Entry(e.owner, Some(destination), e.kind, checked.value, false)]))
  }

  function UploadStep(s: State, caller: OwnerId, parent: Id, name: EntryName, newId: Id, objectId: ObjectId)
    : Result<State, Error>
  {
    if !OwnedFolder(s.entries, parent, caller) then Err(NotFound)
    else if NameTaken(s.entries, parent, name.normalized, None) then Err(NameConflict)
    else if newId in s.entries || objectId in s.objects then Err(Constraint)
    else Commit(State(s.entries[newId := Entry(caller, Some(parent), File(Some(objectId)), name, false)],
                      s.trash, s.objects + {objectId}))
  }

  /** Trashing an entry that is already in the trash only looks its item up. */
  ghost function TrashStep(s: State, caller: OwnerId, entry: Id, newItem: Id): Result<State, Error> {
    if entry !in s.entries || s.entries[entry].owner != caller then Err(NotFound)
    else
      var e := s.entries[entry];
      if e.deleted then (if HasItem(s, entry) then Ok(s) else Err(InvalidState))
      else if e.parent.None? then Err(InvalidState)
      else if newItem in s.trash then Err(Constraint)
      else Commit(State(SetDeleted(s.entries, Subtree(s.entries, entry), true),
                        s.trash[newItem := TrashItem(entry, e.parent.value, caller)],
                        s.objects))
  }

  /**
   Restore re-parents the entry and then re-activates whatever the recursive query finds
   below it. Nothing here asks whether the destination lies below the entry.
   */
  ghost function RestoreStep(s: State, caller: OwnerId, item: Id, destination: Option<Id>): Result<State, Error> {
    if item !in s.trash || s.trash[item].deletedBy != caller then Err(NotFound)
    else
      var t := s.trash[item];
      if t.entry !in s.entries || s.entries[t.entry].owner != caller then Err(NotFound)
      else
        var e := s.entries[t.entry];
        var d := if destination.Some? then destination.value else t.originalParent;
        if !OwnedFolder(s.entries, d, caller) then Err(NotFound)
        else if NameTaken(s.entries, d, e.name.normalized, Some(t.entry)) then Err(NameConflict)
        else if !e.deleted then Err(InvalidState)
        else
          var moved := s.entries[t.entry := e.(parent := Some(d), deleted := false)];
          Commit(State(SetDeleted(moved, Subtree(moved, t.entry), false), s.trash - {item}, s.objects))
  }

  /** Deleting rows cascades to the trash items that point at them. */
  ghost function PurgeStep(s: State, caller: OwnerId, item: Id): Result<State, Error> {
    if item !in s.trash || s.trash[item].deletedBy != caller then Err(NotFound)
    else
      var x := s.trash[item].entry;
      if x !in s.entries || s.entries[x].owner != caller then Err(NotFound)
      else if !s.entries[x].deleted then Err(InvalidState)
      else
        var gone := Subtree(s.entries, x);
        Commit(State(s.entries - gone,
                     map i | i in s.trash && i != item && s.trash[i].entry !in gone :: s.trash[i],
                     s.objects))
  }

  // ---------------------------------------------------------------------------------
  // Folder copy, stated as an isomorphism
  // ---------------------------------------------------------------------------------

  ghost function ActiveSubtree(m: Entries, a: Id): set<Id> {
    set x | x in Subtree(m, a) && !m[x].deleted
  }

  /**
   `after` is `before` plus one fresh row for each row that `f` maps, other than `source`:
   same owner, kind (so the same storage object) and name, hung from the copy of its parent.
   `origin` is the inverse of `f` on the fresh rows.
   */
  ghost predicate CopyRows(before: Entries, source: Id, f: map<Id, Id>, origin: map<Id, Id>, after: Entries) {
    && f.Keys <= before.Keys
    && (forall c | c in f && c != source :: f[c] in origin && origin[f[c]] == c)
    && (forall y | y in origin :: y !in before && origin[y] in f && origin[y] != source && f[origin[y]] == y)
    && after.Keys == before.Keys + origin.Keys
    && (forall x | x in before :: after[x] == before[x])
    && (forall y {:trigger CopyOf(before, f, origin[y], after[y])} | y in origin ::
          CopyOf(before, f, origin[y], after[y]))
  }

  ghost predicate CopyOf(before: Entries, f: map<Id, Id>, c: Id, copy: Entry)
    requires c in before
  {
    && before[c].parent.Some? && before[c].parent.value in f
    && copy == before[c].(parent := Some(f[before[c].parent.value]))
  }

  /** The rows copied are exactly the active rows of the subtree. */
  ghost predicate CopiesBelow(before: Entries, source: Id, f: map<Id, Id>, origin: map<Id, Id>, after: Entries) {
    f.Keys == ActiveSubtree(before, source) && CopyRows(before, source, f, origin, after)
  }

  /**
   The fresh root is inserted first, so a destination inside the source copies it as well.
   No index is consulted here: CopyFolderNeverClashes shows that none could refuse.
   */
  ghost predicate CopyFolderNext(s: State, caller: OwnerId, source: Id, destination: Id,
                                 newName: Option<EntryName>, rootId: Id, s': State)
  {
    var checked := CopyChecks(s, caller, source, destination, newName);
    && checked.Ok?
    && s.entries[source].kind.Folder?
    && rootId !in s.entries
    && s'.trash == s.trash && s'.objects == s.objects
    && var rooted := WithCopyRoot(s, source, destination, checked.value, rootId);
    exists f: map<Id, Id>, origin: map<Id, Id> ::
      source in f && f[source] == rootId && CopiesBelow(rooted, source, f, origin, s'.entries)
  }

  function WithCopyRoot(s: State, source: Id, destination: Id, name: EntryName, rootId: Id): Entries
    requires source in s.entries
  {
    s.entries[rootId := Entry(s.entries[source].owner, Some(destination), Folder, name, false)]
  }

  // ---------------------------------------------------------------------------------
  // Runs
  // ---------------------------------------------------------------------------------

  datatype Command =
    | ProvisionRoot(owner: OwnerId, rootName: EntryName, newId: Id)
    | CreateFolder(caller: OwnerId, parent: Id, name: EntryName, newId: Id)
    | Rename(caller: OwnerId, entry: Id, name: EntryName)
    | Move(caller: OwnerId, entry: Id, to: Id)
    | CopyFile(caller: OwnerId, entry: Id, to: Id, newName: Option<EntryName>, newId: Id)
    | CopyFolder(caller: OwnerId, entry: Id, to: Id, newName: Option<EntryName>, newId: Id)
    | CompleteUpload(caller: OwnerId, parent: Id, name: EntryName, newId: Id, objectId: ObjectId)
    | Trash(caller: OwnerId, entry: Id, newItem: Id)
    | Restore(caller: OwnerId, item: Id, destination: Option<Id>)
    | Purge(caller: OwnerId, item: Id)

  ghost function Step(s: State, c: Command): Result<State, Error>
    requires !c.CopyFolder?
  {
    match c
    case ProvisionRoot(o, n, id) => ProvisionRootStep(s, o, n, id)
    case CreateFolder(o, p, n, id) => CreateFolderStep(s, o, p, n, id)
    case Rename(o, e, n) => RenameStep(s, o, e, n)
    case Move(o, e, d) => MoveStep(s, o, e, d)
    case CopyFile(o, e, d, n, id) => CopyFileStep(s, o, e, d, n, id)
    case CompleteUpload(o, p, n, id, obj) => UploadStep(s, o, p, n, id, obj)
    case Trash(o, e, i) => TrashStep(s, o, e, i)
    case Restore(o, i, d) => RestoreStep(s, o, i, d)
    case Purge(o, i) => PurgeStep(s, o, i)
  }

  /** One serial transaction: it commits, or it is refused and nothing changes. */
  ghost predicate Next(s: State, c: Command, s': State) {
    || s' == s
    || (if c.CopyFolder? then CopyFolderNext(s, c.caller, c.entry, c.to, c.newName, c.newId, s')
        else Step(s, c) == Ok(s'))
  }

  ghost predicate IsRun(states: seq<State>, commands: seq<Command>) {
    && |states| == |commands| + 1
    && states[0] == EMPTY
    && forall i | 0 <= i < |commands| :: Next(states[i], commands[i], states[i + 1])
  }
}
