/**
 The storage use cases over the two tables they change, with the recursive queries as the
 loops the database runs. Each public method is one transaction: it works on a private copy
 of the rows and assigns the fields only when it commits.
 */
module TreeCommands {
  import opened Outcomes
  import opened StorageTree
  import opened StorageTreeProofs
  import opened StorageTreeResults
  import opened CommandEffects

  // ---------------------------------------------------------------------------------
  // Recursive queries
  // ---------------------------------------------------------------------------------

  /** The rows found in the first `n + 1` rounds of a recursive query. */
  ghost function Found(m: Entries, a: Id, n: nat): set<Id> {
    set x | x in m && exists i: nat :: i <= n && Up(m, x, i) == Some(a)
  }

  function ChildrenOf(m: Entries, round: set<Id>): set<Id> {
    set x | x in m && m[x].parent.Some? && m[x].parent.value in round
  }

  lemma LevelZero(m: Entries, a: Id)
    ensures Level(m, a, 0) == Found(m, a, 0) == (if a in m then {a} else {})
  {
    assert a in m ==> Up(m, a, 0) == Some(a);
  }

  lemma NextRound(m: Entries, a: Id, n: nat)
    requires Linked(m) && Acyclic(m)
    ensures ChildrenOf(m, Level(m, a, n)) == Level(m, a, n + 1)
    ensures Found(m, a, n) + Level(m, a, n + 1) == Found(m, a, n + 1)
    ensures Found(m, a, n) !! Level(m, a, n + 1)
  {
    forall x | x in m
      ensures x in Level(m, a, n + 1) <==> x in ChildrenOf(m, Level(m, a, n))
    {
      assert ParentOk(m, x);
      assert Up(m, x, n + 1) == if m[x].parent.Some? then Up(m, m[x].parent.value, n) else None;
    }
    forall x | x in Level(m, a, n + 1)
      ensures x !in Found(m, a, n)
    {
      if i: nat :| i <= n && Up(m, x, i) == Some(a) {
        UpAdd(m, x, i, n + 1 - i);
        NoCycle(m, a, n + 1 - i);
      }
    }
    forall x | x in m
      ensures x in Found(m, a, n + 1) <==> x in Found(m, a, n) || x in Level(m, a, n + 1)
    {
      if x in Level(m, a, n + 1) {
        assert Up(m, x, n + 1) == Some(a);
      }
      if i: nat :| i <= n + 1 && Up(m, x, i) == Some(a) {
        assert i <= n || i == n + 1;
      }
    }
  }

  lemma {:induction false} NothingAfterEmptyLevel(m: Entries, a: Id, n: nat, k: nat)
    requires Linked(m) && Acyclic(m) && Level(m, a, n) == {}
    ensures Level(m, a, n + k) == {}
    decreases k
  {
    if k > 0 {
      NothingAfterEmptyLevel(m, a, n, k - 1);
      NextRound(m, a, n + k - 1);
    }
  }

  lemma FoundIsSubtree(m: Entries, a: Id, n: nat)
    requires Linked(m) && Acyclic(m) && Level(m, a, n) == {}
    ensures Found(m, a, n) == Subtree(m, a)
  {
    forall x | x in Subtree(m, a)
      ensures x in Found(m, a, n)
    {
      var k: nat :| Up(m, x, k) == Some(a);
      assert x in Level(m, a, k);
      if k > n {
        NothingAfterEmptyLevel(m, a, n, k - n);
      }
    }
    forall x | x in Found(m, a, n)
      ensures x in Subtree(m, a)
    {
      var i: nat :| i <= n && Up(m, x, i) == Some(a);
      assert Below(m, x, a);
    }
  }

  /**
   A recursive query that appends each round to the result without removing duplicates.
   It ends because rounds never repeat a row when the links are acyclic.
   */
  method SubtreeRows(m: Entries, a: Id) returns (found: set<Id>)
    requires Linked(m) && Acyclic(m)
    ensures found == Subtree(m, a)
  {
    var round := if a in m then {a} else {};
    found := round;
    ghost var n := 0;
    LevelZero(m, a);
    while round != {}
      invariant round == Level(m, a, n) && found == Found(m, a, n)
      decreases m.Keys - found, round
    {
      NextRound(m, a, n);
      round := ChildrenOf(m, round);
      found := found + round;
      n := n + 1;
    }
    FoundIsSubtree(m, a, n);
  }

  /** Whether `candidate` lies strictly below `ancestor`. */
  method IsDescendant(m: Entries, ancestor: Id, candidate: Id) returns (below: bool)
    requires Linked(m) && Acyclic(m)
    ensures below <==> candidate in Subtree(m, ancestor) && candidate != ancestor
  {
    var rows := SubtreeRows(m, ancestor);
    below := candidate in rows && candidate != ancestor;
  }

  /** Rows without repetition, each after its parent, that are the active subtree of `a`. */
  ghost predicate ParentsFirst(m: Entries, a: Id, nodes: seq<Id>) {
    forall i {:trigger FollowsParent(m, nodes, i)} | 0 <= i < |nodes| && nodes[i] != a :: FollowsParent(m, nodes, i)
  }

  ghost predicate FollowsParent(m: Entries, nodes: seq<Id>, i: int)
    requires 0 <= i < |nodes|
  {
    nodes[i] in m && exists j | 0 <= j < i :: m[nodes[i]].parent == Some(nodes[j])
  }

  ghost predicate Distinct(nodes: seq<Id>) {
    forall i, j | 0 <= i < j < |nodes| :: nodes[i] != nodes[j]
  }

  function Elements(nodes: seq<Id>): set<Id> {
    set x | x in nodes
  }

  /** Append the active rows of one round, in whatever order the sort keys give within it. */
  method AppendRound(m: Entries, nodes: seq<Id>, round: set<Id>) returns (longer: seq<Id>)
    requires round <= m.Keys && Distinct(nodes) && Elements(nodes) !! round
    ensures |nodes| <= |longer| && longer[..|nodes|] == nodes && Distinct(longer)
    ensures Elements(longer) == Elements(nodes) + set x | x in round && !m[x].deleted
    ensures forall i | |nodes| <= i < |longer| :: longer[i] in round
  {
    longer := nodes;
    var rest := round;
    while rest != {}
      invariant rest <= round && |nodes| <= |longer| && longer[..|nodes|] == nodes && Distinct(longer)
      invariant Elements(longer) == Elements(nodes) + set x | x in round - rest && !m[x].deleted
      invariant forall i | |nodes| <= i < |longer| :: longer[i] in round - rest
      decreases rest
    {
      var x :| x in rest;
      rest := rest - {x};
      if !m[x].deleted {
        assert x !in Elements(longer);
        assert Elements(longer + [x]) == Elements(longer) + {x};
        longer := longer + [x];
      }
    }
  }

  lemma RoundKeepsParentsFirst(m: Entries, a: Id, nodes: seq<Id>, longer: seq<Id>, round: set<Id>)
    requires TrashClosed(m) && Linked(m) && ParentsFirst(m, a, nodes)
    requires |nodes| <= |longer| && longer[..|nodes|] == nodes
    requires forall i | |nodes| <= i < |longer| ::
               longer[i] in m && !m[longer[i]].deleted && m[longer[i]].parent.Some?
               && m[longer[i]].parent.value in round
    requires forall x | x in round && x in m && !m[x].deleted :: x in nodes
    ensures ParentsFirst(m, a, longer)
  {
    forall i {:trigger FollowsParent(m, longer, i)} | 0 <= i < |longer| && longer[i] != a
      ensures FollowsParent(m, longer, i)
    {
      if i < |nodes| {
        assert longer[i] == nodes[i] && FollowsParent(m, nodes, i);
        var j :| 0 <= j < i && m[nodes[i]].parent == Some(nodes[j]);
        assert longer[j] == nodes[j];
      } else {
        var p := m[longer[i]].parent.value;
        assert ParentOk(m, longer[i]);
        var j :| 0 <= j < |nodes| && nodes[j] == p;
        assert longer[j] == p;
      }
    }
  }

  ghost function ActiveFound(m: Entries, a: Id, n: nat): set<Id> {
    set x | x in Found(m, a, n) && !m[x].deleted
  }

  /** One more round extends the stream by one more level. */
  lemma StreamRound(m: Entries, a: Id, n: nat, nodes: seq<Id>, longer: seq<Id>)
    requires TreeShaped(m) && ParentsFirst(m, a, nodes) && Elements(nodes) == ActiveFound(m, a, n)
    requires |nodes| <= |longer| && longer[..|nodes|] == nodes && Distinct(longer)
    requires Elements(longer) == Elements(nodes) + set x | x in Level(m, a, n + 1) && !m[x].deleted
    requires forall i | |nodes| <= i < |longer| :: longer[i] in Level(m, a, n + 1)
    ensures ParentsFirst(m, a, longer) && Elements(longer) == ActiveFound(m, a, n + 1)
  {
    NextRound(m, a, n);
    forall i | |nodes| <= i < |longer|
      ensures var x := longer[i];
              x in m && !m[x].deleted && m[x].parent.Some? && m[x].parent.value in Level(m, a, n)
    {
      assert longer[i] in Elements(longer) && longer[i] !in Found(m, a, n);
      assert longer[i] in ChildrenOf(m, Level(m, a, n));
    }
    forall x | x in Level(m, a, n) && !m[x].deleted
      ensures x in nodes
    {
      assert x in Elements(nodes);
    }
    RoundKeepsParentsFirst(m, a, nodes, longer, Level(m, a, n));
  }

  /** The active rows of a subtree ordered by depth. */
  method StreamSubtree(m: Entries, a: Id) returns (nodes: seq<Id>)
    requires TreeShaped(m) && Active(m, a)
    ensures Elements(nodes) == ActiveSubtree(m, a)
    ensures Distinct(nodes) && ParentsFirst(m, a, nodes)
  {
    var round := {a};
    nodes := [a];
    ghost var n := 0;
    LevelZero(m, a);
    while round != {}
      invariant round == Level(m, a, n) && Elements(nodes) == ActiveFound(m, a, n)
      invariant Distinct(nodes) && ParentsFirst(m, a, nodes)
      decreases m.Keys - Found(m, a, n), round
    {
      NextRound(m, a, n);
      round := ChildrenOf(m, round);
      var longer := AppendRound(m, nodes, round);
      StreamRound(m, a, n, nodes, longer);
      nodes := longer;
      n := n + 1;
    }
    FoundIsSubtree(m, a, n);
  }

  /** What the upward query has collected before it reaches the root. */
  ghost predicate IsTail(m: Entries, owner: OwnerId, anchor: Id, above: Option<Id>, path: seq<Id>) {
    && path != [] && path[|path| - 1] == anchor
    && (forall i | 0 <= i < |path| :: OwnedFolder(m, path[i], owner))
    && m[path[0]].parent == above
    && (forall i | 0 < i < |path| :: m[path[i]].parent == Some(path[i - 1]))
  }

  /** The chain of folders from the owner's root down to `anchor`. */
  ghost predicate IsPath(m: Entries, owner: OwnerId, anchor: Id, path: seq<Id>) {
    IsTail(m, owner, anchor, None, path)
  }

  predicate OwnedRoot(m: Entries, x: Id, owner: OwnerId) {
    OwnedFolder(m, x, owner) && m[x].parent.None?
  }

  /**
   Climb from a folder to the root and keep the rows that are active folders of the owner;
   without a folder, start at the owner's root. In a well-formed tree nothing on the way is
   filtered out.
   */
  method FolderPath(m: Entries, owner: OwnerId, folder: Option<Id>) returns (path: seq<Id>)
    requires TreeShaped(m) && UniqueRoots(m)
    ensures folder.Some? && OwnedFolder(m, folder.value, owner) ==> IsPath(m, owner, folder.value, path)
    ensures folder.Some? && !OwnedFolder(m, folder.value, owner) ==> path == []
    ensures folder.None? ==> forall x | x in m && OwnedRoot(m, x, owner) :: path == [x]
    ensures folder.None? && (forall x | x in m :: !OwnedRoot(m, x, owner)) ==> path == []
  {
    path := [];
    var anchor: Id;
    if folder.Some? {
      if !OwnedFolder(m, folder.value, owner) {
        return;
      }
      anchor := folder.value;
    } else {
      if !exists x | x in m :: OwnedRoot(m, x, owner) {
        return;
      }
      anchor :| anchor in m && OwnedRoot(m, anchor, owner);
    }
    path := Climb(m, owner, anchor);
  }

  method Climb(m: Entries, owner: OwnerId, anchor: Id) returns (path: seq<Id>)
    requires TreeShaped(m) && OwnedFolder(m, anchor, owner)
    ensures IsPath(m, owner, anchor, path) && (m[anchor].parent.None? ==> path == [anchor])
  {
    path := [anchor];
    var above := m[anchor].parent;
    ghost var rank: Id -> nat :| Ranked(m, rank);
    while above.Some?
      invariant IsTail(m, owner, anchor, above, path) && (m[anchor].parent.None? ==> path == [anchor] && above.None?)
      decreases if above.Some? then 1 + rank(above.value) else 0
    {
      var p := above.value;
      assert ParentOk(m, path[0]) && m[path[0]].parent == Some(p);
      above := m[p].parent;
      if OwnedFolder(m, p, owner) {
        path := [p] + path;
      }
    }
  }

  // ---------------------------------------------------------------------------------
  // Copying rows
  // ---------------------------------------------------------------------------------

  /** `folderIds` is the part of the correspondence that the use case remembers. */
  ghost predicate FolderIdsOf(m: Entries, f: map<Id, Id>, folderIds: map<Id, Id>) {
    && f.Keys <= m.Keys
    && (forall c | c in f && m[c].kind.Folder? :: c in folderIds)
    && (forall c | c in folderIds :: c in f && folderIds[c] == f[c])
  }

  lemma CopyOneRow(before: Entries, source: Id, f: map<Id, Id>, origin: map<Id, Id>, rows: Entries, c: Id, id: Id)
    requires CopyRows(before, source, f, origin, rows) && c in before && c !in f && c != source && id !in rows
    requires source in f && f[source] in before
    requires before[c].parent.Some? && before[c].parent.value in f
    ensures CopyRows(before, source, f[c := id], origin[id := c],
                     rows[id := before[c].(parent := Some(f[before[c].parent.value]))])
  {
    var f', origin' := f[c := id], origin[id := c];
    var rows' := rows[id := before[c].(parent := Some(f[before[c].parent.value]))];
    forall y | y in origin'
      ensures CopyOf(before, f', origin'[y], rows'[y])
    {
      assert y != id ==> CopyOf(before, f, origin[y], rows[y]);
    }
  }

  /** What the second pass is given: the streamed subtree, and ids beyond every key. */
  ghost predicate Copyable(before: Entries, source: Id, copiedRoot: Id, nodes: seq<Id>, firstId: Id) {
    && source in before && copiedRoot in before && before[source].kind.Folder? && source in nodes
    && Distinct(nodes) && ParentsFirst(before, source, nodes) && Elements(nodes) <= before.Keys
    && (forall x | x in before :: x < firstId)
    && (forall x | x in nodes :: !before[x].deleted)
  }

  /** Everything copied before step `i`. */
  ghost predicate CopiedUpTo(before: Entries, source: Id, copiedRoot: Id, nodes: seq<Id>, i: nat, f: map<Id, Id>,
                             origin: map<Id, Id>, folderIds: map<Id, Id>, rows: Entries, nextId: Id)
    requires i <= |nodes|
  {
    && source in f && f[source] == copiedRoot && f.Keys == Elements(nodes[..i]) + {source}
    && CopyRows(before, source, f, origin, rows) && FolderIdsOf(before, f, folderIds)
    && forall x | x in rows :: x < nextId
  }

  /** The node to copy next hangs from a folder that has been copied. */
  lemma ParentIsCopied(before: Entries, source: Id, copiedRoot: Id, nodes: seq<Id>, firstId: Id, i: nat, f: map<Id, Id>,
                       origin: map<Id, Id>, folderIds: map<Id, Id>, rows: Entries, nextId: Id)
    requires Linked(before) && Copyable(before, source, copiedRoot, nodes, firstId) && i < |nodes|
    requires CopiedUpTo(before, source, copiedRoot, nodes, i, f, origin, folderIds, rows, nextId) && nodes[i] != source
    ensures nodes[i] in before && nodes[i] !in f && before[nodes[i]].parent.Some?
    ensures var p := before[nodes[i]].parent.value; p in f && p in folderIds && folderIds[p] == f[p]
  {
    assert FollowsParent(before, nodes, i);
    var j :| 0 <= j < i && before[nodes[i]].parent == Some(nodes[j]);
    assert nodes[..i][j] == nodes[j] && nodes[j] in Elements(nodes[..i]);
    assert ParentOk(before, nodes[i]);
  }

  lemma CopiedOneMore(before: Entries, source: Id, copiedRoot: Id, nodes: seq<Id>, firstId: Id, i: nat, f: map<Id, Id>,
                      origin: map<Id, Id>, folderIds: map<Id, Id>, rows: Entries, nextId: Id)
    requires Linked(before) && Copyable(before, source, copiedRoot, nodes, firstId) && i < |nodes|
    requires CopiedUpTo(before, source, copiedRoot, nodes, i, f, origin, folderIds, rows, nextId) && nodes[i] != source
    requires nodes[i] in before && nodes[i] !in f
    requires before[nodes[i]].parent.Some? && before[nodes[i]].parent.value in f
    ensures var c := nodes[i];
            CopiedUpTo(before, source, copiedRoot, nodes, i + 1, f[c := nextId], origin[nextId := c],
                       if before[c].kind.Folder? then folderIds[c := nextId] else folderIds,
                       rows[nextId := before[c].(parent := Some(f[before[c].parent.value]))], nextId + 1)
  {
    CopyOneRow(before, source, f, origin, rows, nodes[i], nextId);
    OneMoreElement(nodes, i);
    FolderIdsGrow(before, f, folderIds, nodes[i], nextId);
  }

  lemma OneMoreElement(nodes: seq<Id>, i: nat)
    requires i < |nodes|
    ensures Elements(nodes[..i + 1]) == Elements(nodes[..i]) + {nodes[i]}
  {
    assert nodes[..i + 1] == nodes[..i] + [nodes[i]];
  }

  lemma FolderIdsGrow(m: Entries, f: map<Id, Id>, folderIds: map<Id, Id>, c: Id, id: Id)
    requires FolderIdsOf(m, f, folderIds) && c in m && c !in f
    ensures FolderIdsOf(m, f[c := id], if m[c].kind.Folder? then folderIds[c := id] else folderIds)
  {
  }

  /** One fresh row for one streamed node; only a copied folder is remembered as a parent. */
  method CopyNode(before: Entries, node: Id, folderIds: map<Id, Id>, rows: Entries, nextId: Id,
                  ghost source: Id, ghost copiedRoot: Id, ghost nodes: seq<Id>, ghost firstId: Id, ghost i: nat,
                  ghost f: map<Id, Id>, ghost origin: map<Id, Id>)
    returns (rows': Entries, folderIds': map<Id, Id>, ghost f': map<Id, Id>, ghost origin': map<Id, Id>)
    requires Linked(before) && Copyable(before, source, copiedRoot, nodes, firstId) && i < |nodes|
    requires node == nodes[i] != source
    requires CopiedUpTo(before, source, copiedRoot, nodes, i, f, origin, folderIds, rows, nextId)
    requires node in before && (before[node].kind.File? ==> before[node].kind.version.Some?)
    ensures CopiedUpTo(before, source, copiedRoot, nodes, i + 1, f', origin', folderIds', rows', nextId + 1)
    ensures before[node].parent.Some? && before[node].parent.value in folderIds
    ensures rows' == rows[nextId := before[node].(parent := Some(folderIds[before[node].parent.value]))]
    ensures node in folderIds' <==> before[node].kind.Folder?
  {
    ParentIsCopied(before, source, copiedRoot, nodes, firstId, i, f, origin, folderIds, rows, nextId);
    CopiedOneMore(before, source, copiedRoot, nodes, firstId, i, f, origin, folderIds, rows, nextId);
    var child := before[node];
    // The use case raises if the parent was not copied or the file has no version.
    assert child.parent.Some? && child.parent.value in folderIds;
    assert child.kind.File? ==> child.kind.version.Some?;
    assert !child.deleted;
    rows' := rows[nextId := Entry(child.owner, Some(folderIds[child.parent.value]), child.kind, child.name, false)];
    folderIds' := if child.kind.Folder? then folderIds[node := nextId] else folderIds;
    f', origin' := f[node := nextId], origin[nextId := node];
  }

  lemma NothingCopied(before: Entries, source: Id, copiedRoot: Id, nodes: seq<Id>, firstId: Id)
    requires Copyable(before, source, copiedRoot, nodes, firstId)
    ensures var f: map<Id, Id> := map[source := copiedRoot];
            CopiedUpTo(before, source, copiedRoot, nodes, 0, f, map[], f, before, firstId)
  {
    assert nodes[..0] == [];
  }

  lemma SourceSkipped(before: Entries, source: Id, copiedRoot: Id, nodes: seq<Id>, i: nat, f: map<Id, Id>,
                      origin: map<Id, Id>, folderIds: map<Id, Id>, rows: Entries, nextId: Id)
    requires i < |nodes| && nodes[i] == source
    requires CopiedUpTo(before, source, copiedRoot, nodes, i, f, origin, folderIds, rows, nextId)
    ensures CopiedUpTo(before, source, copiedRoot, nodes, i + 1, f, origin, folderIds, rows, nextId)
  {
    OneMoreElement(nodes, i);
  }

  lemma AllCopied(before: Entries, source: Id, copiedRoot: Id, nodes: seq<Id>, f: map<Id, Id>,
                  origin: map<Id, Id>, folderIds: map<Id, Id>, rows: Entries, nextId: Id)
    requires source in nodes
    requires CopiedUpTo(before, source, copiedRoot, nodes, |nodes|, f, origin, folderIds, rows, nextId)
    ensures source in f && f[source] == copiedRoot && f.Keys == Elements(nodes)
    ensures CopyRows(before, source, f, origin, rows) && forall x | x in rows :: x < nextId
  {
    assert nodes[..|nodes|] == nodes;
  }

  /**
   The second pass of a folder copy: one fresh row for each streamed node below the source.
   The parent of every node has been copied before it, so the pass never stops.
   */
  method CopyNodes(before: Entries, source: Id, copiedRoot: Id, nodes: seq<Id>, firstId: Id)
    returns (rows: Entries, nextId: Id, ghost f: map<Id, Id>, ghost origin: map<Id, Id>)
    requires Linked(before) && Copyable(before, source, copiedRoot, nodes, firstId)
    requires forall x | x in before && before[x].kind.File? :: before[x].kind.version.Some?
    ensures source in f && f[source] == copiedRoot && f.Keys == Elements(nodes)
    ensures CopyRows(before, source, f, origin, rows)
    ensures firstId <= nextId && forall x | x in rows :: x < nextId
  {
    rows, nextId := before, firstId;
    var folderIds: map<Id, Id> := map[source := copiedRoot];
    f, origin := map[source := copiedRoot], map[];
    NothingCopied(before, source, copiedRoot, nodes, firstId);
    var i := 0;
    while i < |nodes|
      invariant 0 <= i <= |nodes| && firstId <= nextId
      invariant CopiedUpTo(before, source, copiedRoot, nodes, i, f, origin, folderIds, rows, nextId)
    {
      if nodes[i] == source {
        SourceSkipped(before, source, copiedRoot, nodes, i, f, origin, folderIds, rows, nextId);
      } else {
        assert nodes[i] in Elements(nodes);
        rows, folderIds, f, origin :=
          CopyNode(before, nodes[i], folderIds, rows, nextId, source, copiedRoot, nodes, firstId, i, f, origin);
        nextId := nextId + 1;
      }
      i := i + 1;
    }
    AllCopied(before, source, copiedRoot, nodes, f, origin, folderIds, rows, nextId);
  }

  // ---------------------------------------------------------------------------------
  // The use cases
  // ---------------------------------------------------------------------------------

  /** The answer and the new state are those of the specification; a refusal changes nothing. */
  ghost predicate Follows<T>(s: State, expected: Result<State, Error>, answer: Result<T, Error>, s': State) {
    match expected
    case Ok(t) => answer.Ok? && s' == t
    case Err(e) => answer == Err(e) && s' == s
  }

  /** Insert the fresh root, stream the source as the tables now stand, and copy what was streamed. */
  method CopyFolderTree(s: State, caller: OwnerId, source: Id, destination: Id, newName: Option<EntryName>, id: Id)
    returns (rows: Entries, nextId: Id)
    requires Sound(s) && CopyChecks(s, caller, source, destination, newName).Ok?
    requires s.entries[source].kind.Folder? && forall x | x in s.entries :: x < id
    ensures CopyFolderNext(s, caller, source, destination, newName, id, State(rows, s.trash, s.objects))
    ensures id < nextId && (forall x | x in rows :: x < nextId) && id in rows
  {
    var name := CopyChecks(s, caller, source, destination, newName).value;
    var rooted := s.entries[id := Entry(s.entries[source].owner, Some(destination), Folder, name, false)];
    RootedIsTree(s, source, destination, name, id);
    var nodes := StreamSubtree(rooted, source);
    StreamIsCopyable(rooted, source, id, nodes, id + 1);
    ghost var f, origin;
    rows, nextId, f, origin := CopyNodes(rooted, source, id, nodes, id + 1);
    assert CopiesBelow(WithCopyRoot(s, source, destination, name, id), source, f, origin, rows);
  }

  lemma StreamIsCopyable(m: Entries, source: Id, copiedRoot: Id, nodes: seq<Id>, firstId: Id)
    requires Elements(nodes) == ActiveSubtree(m, source) && Distinct(nodes) && ParentsFirst(m, source, nodes)
    requires Active(m, source) && m[source].kind.Folder? && copiedRoot in m && forall x | x in m :: x < firstId
    ensures Copyable(m, source, copiedRoot, nodes, firstId)
  {
    SubtreeHasRoot(m, source);
    assert source in Elements(nodes);
    assert forall x | x in nodes :: x in Elements(nodes);
  }

  /** The writes of a restore whose checks have passed. */
  method ReattachAndRevive(s: State, caller: OwnerId, item: Id, destination: Option<Id>)
    returns (after: Result<State, Error>)
    requires TreeShaped(s.entries) && RestoreAccepted(s, caller, item, destination)
    ensures after == RestoreStep(s, caller, item, destination)
  {
    var x := s.trash[item].entry;
    var d := if destination.Some? then destination.value else s.trash[item].originalParent;
    var moved := s.entries[x := s.entries[x].(parent := Some(d), deleted := false)];
    RestoreKeepsLinks(s.entries, x, d);
    var below := SubtreeRows(moved, x);
    RestoreStepIs(s, caller, item, destination, moved);
    after := Commit(State(SetDeleted(moved, below, false), s.trash - {item}, s.objects));
  }

  /** What the tables may rely on when a restore commits: the invariant, and no key that was not there before. */
  lemma RestoreCommits(s: State, caller: OwnerId, item: Id, destination: Option<Id>, s': State)
    requires Valid(s) && RestoreStep(s, caller, item, destination) == Ok(s')
    ensures Valid(s') && s'.objects == s.objects
    ensures s'.entries.Keys == s.entries.Keys && s'.trash.Keys <= s.trash.Keys
  {
    StepKeeps(s, Command.Restore(caller, item, destination), s');
    RestoreOutcome(s, caller, item, destination, s');
  }

  lemma PurgeCommits(s: State, caller: OwnerId, item: Id, s': State)
    requires Valid(s) && PurgeStep(s, caller, item) in {Ok(s'), Err(Constraint)}
    requires s'.entries.Keys <= s.entries.Keys && s'.trash.Keys <= s.trash.Keys
    ensures PurgeStep(s, caller, item) == Ok(s') && Valid(s') && s'.objects == s.objects
    ensures item in s.trash && |s'.entries| == |s.entries| - |Subtree(s.entries, s.trash[item].entry)| < |s.entries|
  {
    NameChecksSuffice(s, Command.Purge(caller, item));
    StepKeeps(s, Command.Purge(caller, item), s');
    PurgeEffect(s, caller, item, s');
  }

  class Drive {
    var entries: Entries
    var trash: map<Id, TrashItem>
    var objects: set<ObjectId>
    var nextId: Id

    ghost function Snapshot(): State
      reads this
    {
      State(entries, trash, objects)
    }

    /** The tables satisfy the invariant and the id generator is ahead of every key. */
    ghost predicate Consistent()
      reads this
    {
      && Valid(Snapshot())
      && (forall x | x in entries :: x < nextId)
      && (forall i | i in trash :: i < nextId)
      && (forall o | o in objects :: o < nextId)
    }

    constructor ()
      ensures Consistent() && Snapshot() == EMPTY
    {
      entries, trash, objects, nextId := map[], map[], {}, 0;
      new;
      assert Ranked(entries, (x: Id) => 0);
    }

    method ProvisionRoot(owner: OwnerId, name: EntryName) returns (r: Result<Id, Error>)
      requires Consistent()
      modifies this
      ensures Consistent()
      ensures Follows(old(Snapshot()), ProvisionRootStep(old(Snapshot()), owner, name, old(nextId)), r, Snapshot())
      ensures r.Ok? ==> r.value == old(nextId)
    {
      var id := nextId;
      nextId := nextId + 1;
      var rows := entries[id := Entry(owner, None, Folder, name, false)];
      if !Constraints(State(rows, trash, objects)) {
        return Err(Constraint);
      }
      StepKeeps(Snapshot(), Command.ProvisionRoot(owner, name, id), State(rows, trash, objects));
      entries := rows;
      return Ok(id);
    }

    method CreateFolder(caller: OwnerId, parent: Id, name: EntryName) returns (r: Result<Id, Error>)
      requires Consistent()
      modifies this
      ensures Consistent()
      ensures Follows(old(Snapshot()), CreateFolderStep(old(Snapshot()), caller, parent, name, old(nextId)),
                      r, Snapshot())
      ensures r.Ok? ==> r.value == old(nextId)
    {
      if !OwnedFolder(entries, parent, caller) {
        return Err(NotFound);
      }
      if NameTaken(entries, parent, name.normalized, None) {
        return Err(NameConflict);
      }
      NameChecksSuffice(Snapshot(), Command.CreateFolder(caller, parent, name, nextId));
      var rows := entries[nextId := Entry(caller, Some(parent), Folder, name, false)];
      StepKeeps(Snapshot(), Command.CreateFolder(caller, parent, name, nextId), State(rows, trash, objects));
      r := Ok(nextId);
      entries, nextId := rows, nextId + 1;
    }

    method Rename(caller: OwnerId, entry: Id, name: EntryName) returns (r: Result<Id, Error>)
      requires Consistent()
      modifies this
      ensures Consistent()
      ensures Follows(old(Snapshot()), RenameStep(old(Snapshot()), caller, entry, name), r, Snapshot())
      ensures r.Ok? ==> r.value == entry
    {
      if !OwnedActive(entries, entry, caller) {
        return Err(NotFound);
      }
      var e := entries[entry];
      if e.parent.None? {
        return Err(InvalidState);
      }
      if NameTaken(entries, e.parent.value, name.normalized, Some(entry)) {
        return Err(NameConflict);
      }
      NameChecksSuffice(Snapshot(), Command.Rename(caller, entry, name));
      var rows := entries[entry := e.(name := name)];
      StepKeeps(Snapshot(), Command.Rename(caller, entry, name), State(rows, trash, objects));
      entries := rows;
      r := Ok(entry);
    }

    method Move(caller: OwnerId, entry: Id, destination: Id) returns (r: Result<Id, Error>)
      requires Consistent()
      modifies this
      ensures Consistent()
      ensures Follows(old(Snapshot()), MoveStep(old(Snapshot()), caller, entry, destination), r, Snapshot())
      ensures r.Ok? ==> r.value == entry && entries[entry].parent == Some(destination)
    {
      if !OwnedActive(entries, entry, caller) {
        return Err(NotFound);
      }
      var e := entries[entry];
      if e.parent.None? || entry == destination {
        return Err(InvalidMove);
      }
      if !OwnedFolder(entries, destination, caller) {
        return Err(NotFound);
      }
      if e.kind.Folder? {
        var below := IsDescendant(entries, entry, destination);
        if below {
          return Err(InvalidMove);
        }
      }
      if NameTaken(entries, destination, e.name.normalized, Some(entry)) {
        return Err(NameConflict);
      }
      NameChecksSuffice(Snapshot(), Command.Move(caller, entry, destination));
      var rows := entries[entry := e.(parent := Some(destination))];
      StepKeeps(Snapshot(), Command.Move(caller, entry, destination), State(rows, trash, objects));
      entries := rows;
      r := Ok(entry);
    }

    method CompleteUpload(caller: OwnerId, parent: Id, name: EntryName) returns (r: Result<Id, Error>)
      requires Consistent()
      modifies this
      ensures Consistent()
      ensures Follows(old(Snapshot()),
                      UploadStep(old(Snapshot()), caller, parent, name, old(nextId), old(nextId) + 1), r, Snapshot())
      ensures r.Ok? ==> r.value == old(nextId)
    {
      if !OwnedFolder(entries, parent, caller) {
        return Err(NotFound);
      }
      if NameTaken(entries, parent, name.normalized, None) {
        return Err(NameConflict);
      }
      var id, obj := nextId, nextId + 1;
      NameChecksSuffice(Snapshot(), Command.CompleteUpload(caller, parent, name, id, obj));
      var rows := entries[id := Entry(caller, Some(parent), File(Some(obj)), name, false)];
      StepKeeps(Snapshot(), Command.CompleteUpload(caller, parent, name, id, obj), State(rows, trash, objects + {obj}));
      entries, objects, nextId := rows, objects + {obj}, nextId + 2;
      r := Ok(id);
    }

    /** An entry already in the trash only has its item looked up. */
    method Trash(caller: OwnerId, entry: Id) returns (r: Result<Id, Error>)
      requires Consistent()
      modifies this
      ensures Consistent()
      ensures Follows(old(Snapshot()), TrashStep(old(Snapshot()), caller, entry, old(nextId)), r, Snapshot())
      ensures r.Ok? ==> r.value in trash && trash[r.value].entry == entry
    {
      if entry !in entries || entries[entry].owner != caller {
        return Err(NotFound);
      }
      var e := entries[entry];
      if e.deleted {
        if i :| i in trash && trash[i].entry == entry {
          return Ok(i);
        }
        return Err(InvalidState);
      }
      if e.parent.None? {
        return Err(InvalidState);
      }
      var item := nextId;
      nextId := nextId + 1;
      var below := SubtreeRows(entries, entry);
      var s' := State(SetDeleted(entries, below, true),
                      trash[item := TrashItem(entry, e.parent.value, caller)], objects);
      if !Constraints(s') {
        return Err(Constraint);
      }
      StepKeeps(Snapshot(), Command.Trash(caller, entry, item), s');
      entries, trash := s'.entries, s'.trash;
      r := Ok(item);
    }

    method Restore(caller: OwnerId, item: Id, destination: Option<Id>) returns (r: Result<Id, Error>)
      requires Consistent()
      modifies this
      ensures Consistent()
      ensures Follows(old(Snapshot()), RestoreStep(old(Snapshot()), caller, item, destination), r, Snapshot())
      ensures r.Ok? ==> item in old(trash) && r.value == old(trash[item].entry)
    {
      if item !in trash || trash[item].deletedBy != caller {
        return Err(NotFound);
      }
      var t := trash[item];
      if t.entry !in entries || entries[t.entry].owner != caller {
        return Err(NotFound);
      }
      var e := entries[t.entry];
      var d := if destination.Some? then destination.value else t.originalParent;
      if !OwnedFolder(entries, d, caller) {
        return Err(NotFound);
      }
      if NameTaken(entries, d, e.name.normalized, Some(t.entry)) {
        return Err(NameConflict);
      }
      if !e.deleted {
        return Err(InvalidState);
      }
      var restored := ReattachAndRevive(State(entries, trash, objects), caller, item, destination);
      if restored.Err? {
        return Err(restored.error);
      }
      RestoreCommits(Snapshot(), caller, item, destination, restored.value);
      entries, trash := restored.value.entries, restored.value.trash;
      r := Ok(t.entry);
    }

    /** Returns how many rows the subtree had. */
    method PermanentlyDelete(caller: OwnerId, item: Id) returns (r: Result<nat, Error>)
      requires Consistent()
      modifies this
      ensures Consistent()
      ensures Follows(old(Snapshot()), PurgeStep(old(Snapshot()), caller, item), r, Snapshot())
      ensures r.Ok? ==> item in old(trash) && r.value == |Subtree(old(entries), old(trash[item].entry))|
      ensures r.Ok? ==> r.value >= 1 && r.value == |old(entries)| - |entries|
    {
      if item !in trash || trash[item].deletedBy != caller {
        return Err(NotFound);
      }
      var x := trash[item].entry;
      if x !in entries || entries[x].owner != caller {
        return Err(NotFound);
      }
      if !entries[x].deleted {
        return Err(InvalidState);
      }
      var gone := SubtreeRows(entries, x);
      var s' := State(entries - gone, map i | i in trash && i != item && trash[i].entry !in gone :: trash[i], objects);
      PurgeCommits(Snapshot(), caller, item, s');
      r := Ok(|gone|);
      entries, trash := s'.entries, s'.trash;
    }

    /** A file gets one fresh row; a folder gets a fresh root and then the streamed rows. */
    method Copy(caller: OwnerId, source: Id, destination: Id, newName: Option<EntryName>) returns (r: Result<Id, Error>)
      requires Consistent()
      modifies this
      ensures Consistent()
      ensures var checked := CopyChecks(old(Snapshot()), caller, source, destination, newName);
              if checked.Err? then r == Err(checked.error) && Snapshot() == old(Snapshot())
              else if old(entries[source]).kind.File? then
                r == Ok(old(nextId))
                && CopyFileStep(old(Snapshot()), caller, source, destination, newName, old(nextId)) == Ok(Snapshot())
              else
                r == Ok(old(nextId))
                && CopyFolderNext(old(Snapshot()), caller, source, destination, newName, old(nextId), Snapshot())
    {
      var checked := CopyChecks(State(entries, trash, objects), caller, source, destination, newName);
      if checked.Err? {
        return Err(checked.error);
      }
      var e := entries[source];
      var id := nextId;
      if e.kind.File? {
        NameChecksSuffice(Snapshot(), Command.CopyFile(caller, source, destination, newName, id));
        var rows := entries[id := Entry(e.owner, Some(destination), e.kind, checked.value, false)];
        StepKeeps(Snapshot(), Command.CopyFile(caller, source, destination, newName, id), State(rows, trash, objects));
        entries, nextId := rows, nextId + 1;
      } else {
        var rows, next := CopyFolderTree(State(entries, trash, objects), caller, source, destination, newName, id);
        CopyFolderKeeps(Snapshot(), caller, source, destination, newName, id, State(rows, trash, objects));
        entries, nextId := rows, next;
      }
      r := Ok(id);
    }
  }

  lemma RestoreStepIs(s: State, caller: OwnerId, item: Id, destination: Option<Id>, moved: Entries)
    requires RestoreAccepted(s, caller, item, destination)
    requires var x := s.trash[item].entry;
             moved == s.entries[x := s.entries[x].(parent := Some(RestoreTo(s, item, destination)), deleted := false)]
    ensures RestoreStep(s, caller, item, destination)
            == Commit(State(SetDeleted(moved, Subtree(moved, s.trash[item].entry), false), s.trash - {item}, s.objects))
  {
  }

  lemma RestoreKeepsLinks(m: Entries, x: Id, d: Id)
    requires TreeShaped(m) && x in m && m[x].deleted && OwnedFolder(m, d, m[x].owner)
    ensures Linked(m[x := m[x].(parent := Some(d), deleted := false)])
    ensures Acyclic(m[x := m[x].(parent := Some(d), deleted := false)])
  {
    var m' := m[x := m[x].(parent := Some(d), deleted := false)];
    forall y | y in m'
      ensures ParentOk(m', y)
    {
      assert ParentOk(m, y);
    }
    RestoreDestinationOutside(m, x, d);
    ReparentAcyclic(m, x, d, m[x := m[x].(parent := Some(d), deleted := false)]);
  }

  lemma RootedIsTree(s: State, source: Id, destination: Id, name: EntryName, rootId: Id)
    requires Sound(s) && source in s.entries && rootId !in s.entries
    requires OwnedFolder(s.entries, destination, s.entries[source].owner)
    ensures Sound(s.(entries := WithCopyRoot(s, source, destination, name, rootId)))
  {
    var rooted := WithCopyRoot(s, source, destination, name, rootId);
    AddLeafSound(s, destination, rooted[rootId], rootId, s.(entries := rooted));
  }
}
