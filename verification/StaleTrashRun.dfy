/** A run of the tree commands that leaves an active entry with a stale trash item, and the way out of it. */
module StaleTrashRun {
  import opened Outcomes
  import opened StorageTree
  import opened StorageTreeProofs
  import opened StorageTreeResults

  ghost predicate Reachable(s: State) {
    exists states: seq<State>, commands: seq<Command> :: IsRun(states, commands) && states[|states| - 1] == s
  }

  lemma EmptyIsReachable()
    ensures Reachable(EMPTY)
  {
    assert IsRun([EMPTY], []);
  }

  lemma NextIsReachable(s: State, c: Command, s': State)
    requires Reachable(s) && Next(s, c, s')
    ensures Reachable(s')
  {
    var states: seq<State>, commands: seq<Command> :| IsRun(states, commands) && states[|states| - 1] == s;
    assert IsRun(states + [s'], commands + [c]);
  }

  lemma ReachableIsValid(s: State)
    requires Reachable(s)
    ensures Valid(s)
  {
    var states: seq<State>, commands: seq<Command> :| IsRun(states, commands) && states[|states| - 1] == s;
    EveryRunKeeps(states, commands, |states| - 1);
  }

  const ROOT := EntryName("Drive", "drive")
  const OUTER := EntryName("Photos", "photos")
  const INNER := EntryName("2026", "2026")

  function Row(parent: Option<Id>, name: EntryName, deleted: bool): Entry {
    Entry(0, parent, Folder, name, deleted)
  }

  /** A root, a folder in it, and a folder in that one. */
  function Nested(outer: bool, inner: bool): Entries {
    map[0 := Row(None, ROOT, false), 1 := Row(Some(0), OUTER, outer), 2 := Row(Some(1), INNER, inner)]
  }

  const INNER_ITEM := TrashItem(2, 1, 0)
  const OUTER_ITEM := TrashItem(1, 0, 0)

  lemma NestedSubtrees(outer: bool, inner: bool)
    ensures Subtree(Nested(outer, inner), 1) == {1, 2} && Subtree(Nested(outer, inner), 2) == {2}
  {
    var m := Nested(outer, inner);
    SubtreeHasRoot(m, 1);
    SubtreeHasRoot(m, 2);
    SubtreeStep(m, 1, 0);
    SubtreeStep(m, 1, 2);
    SubtreeStep(m, 2, 0);
    SubtreeStep(m, 2, 1);
  }

  lemma FoldersCreated()
    ensures Reachable(State(Nested(false, false), map[], {}))
  {
    EmptyIsReachable();
    var rooted := State(map[0 := Row(None, ROOT, false)], map[], {});
    NextIsReachable(EMPTY, ProvisionRoot(0, ROOT, 0), rooted);
    var one := State(map[0 := Row(None, ROOT, false), 1 := Row(Some(0), OUTER, false)], map[], {});
    NextIsReachable(rooted, CreateFolder(0, 0, OUTER, 1), one);
    NextIsReachable(one, CreateFolder(0, 1, INNER, 2), State(Nested(false, false), map[], {}));
  }

  lemma InnerTrashed()
    ensures Reachable(State(Nested(false, true), map[10 := INNER_ITEM], {}))
  {
    FoldersCreated();
    NestedSubtrees(false, false);
    assert SetDeleted(Nested(false, false), {2}, true) == Nested(false, true);
    NextIsReachable(State(Nested(false, false), map[], {}), Command.Trash(0, 2, 10),
                    State(Nested(false, true), map[10 := INNER_ITEM], {}));
  }

  lemma OuterTrashed()
    ensures Reachable(State(Nested(true, true), map[10 := INNER_ITEM, 11 := OUTER_ITEM], {}))
  {
    InnerTrashed();
    NestedSubtrees(false, true);
    assert SetDeleted(Nested(false, true), {1, 2}, true) == Nested(true, true);
    NextIsReachable(State(Nested(false, true), map[10 := INNER_ITEM], {}), Command.Trash(0, 1, 11),
                    State(Nested(true, true), map[10 := INNER_ITEM, 11 := OUTER_ITEM], {}));
  }

  lemma OuterReattached()
    ensures var moved := Nested(true, true)[1 := Nested(true, true)[1].(parent := Some(0), deleted := false)];
            SetDeleted(moved, Subtree(moved, 1), false) == Nested(false, false)
  {
    NestedSubtrees(false, true);
    assert Nested(true, true)[1 := Row(Some(0), OUTER, false)] == Nested(false, true);
    assert SetDeleted(Nested(false, true), {1, 2}, false) == Nested(false, false);
  }

  lemma OuterRestoreCommits()
    ensures RestoreStep(State(Nested(true, true), map[10 := INNER_ITEM, 11 := OUTER_ITEM], {}), 0, 11, None)
            == Ok(State(Nested(false, false), map[10 := INNER_ITEM], {}))
  {
    OuterReattached();
    assert map[10 := INNER_ITEM, 11 := OUTER_ITEM] - {11} == map[10 := INNER_ITEM];
  }

  lemma OuterRestored()
    ensures Reachable(State(Nested(false, false), map[10 := INNER_ITEM], {}))
  {
    OuterTrashed();
    OuterRestoreCommits();
    NextIsReachable(State(Nested(true, true), map[10 := INNER_ITEM, 11 := OUTER_ITEM], {}),
                    Command.Restore(0, 11, None),
                    State(Nested(false, false), map[10 := INNER_ITEM], {}));
  }

  /**
   Create two nested folders, trash the inner, trash the outer, restore the outer: the inner
   one is active again, its old item is still there, and it can no longer be trashed.
   */
  lemma StaleItemIsReachable() returns (s: State)
    ensures Reachable(s) && Active(s.entries, 2) && HasItem(s, 2)
    ensures forall newItem | newItem !in s.trash :: TrashStep(s, 0, 2, newItem) == Err(Constraint)
  {
    OuterRestored();
    s := State(Nested(false, false), map[10 := INNER_ITEM], {});
    ReachableIsValid(s);
    assert s.trash[10].entry == 2;
    forall newItem | newItem !in s.trash ensures TrashStep(s, 0, 2, newItem) == Err(Constraint) {
      TrashRefusedIff(s, 0, 2, newItem);
    }
  }

  lemma OuterTrashedAgain()
    ensures Reachable(State(Nested(true, true), map[10 := INNER_ITEM, 12 := OUTER_ITEM], {}))
  {
    OuterRestored();
    NestedSubtrees(false, false);
    assert SetDeleted(Nested(false, false), {1, 2}, true) == Nested(true, true);
    NextIsReachable(State(Nested(false, false), map[10 := INNER_ITEM], {}), Command.Trash(0, 1, 12),
                    State(Nested(true, true), map[10 := INNER_ITEM, 12 := OUTER_ITEM], {}));
  }

  /** The inner folder, taken out of the trashed outer one. */
  const APART: Entries :=
    map[0 := Row(None, ROOT, false), 1 := Row(Some(0), OUTER, true), 2 := Row(Some(0), INNER, false)]

  lemma InnerRestoreCommits()
    ensures RestoreStep(State(Nested(true, true), map[10 := INNER_ITEM, 12 := OUTER_ITEM], {}), 0, 10, Some(0))
            == Ok(State(APART, map[12 := OUTER_ITEM], {}))
  {
    var moved := Nested(true, true)[2 := Row(Some(0), INNER, false)];
    assert moved == APART;
    SubtreeHasRoot(APART, 2);
    SubtreeStep(APART, 2, 0);
    SubtreeStep(APART, 2, 1);
    assert Subtree(APART, 2) == {2};
    assert SetDeleted(APART, {2}, false) == APART;
    assert map[10 := INNER_ITEM, 12 := OUTER_ITEM] - {10} == map[12 := OUTER_ITEM];
  }

  /**
   The way out: trash the outer folder once more, then restore the old item of the inner one to
   the root. The inner folder is active without an item, and can be trashed again.
   */
  lemma StaleItemWayOut() returns (s: State)
    ensures Reachable(s) && Active(s.entries, 2) && !HasItem(s, 2)
    ensures forall newItem | newItem !in s.trash :: TrashStep(s, 0, 2, newItem).Ok?
  {
    OuterTrashedAgain();
    InnerRestoreCommits();
    s := State(APART, map[12 := OUTER_ITEM], {});
    NextIsReachable(State(Nested(true, true), map[10 := INNER_ITEM, 12 := OUTER_ITEM], {}),
                    Command.Restore(0, 10, Some(0)), s);
    ReachableIsValid(s);
    forall newItem | newItem !in s.trash ensures TrashStep(s, 0, 2, newItem).Ok? {
      TrashRefusedIff(s, 0, 2, newItem);
    }
  }
}
