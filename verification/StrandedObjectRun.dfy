/** The one interleaving after which an unreferenced object is forgotten, as a run from the empty state. */
module StrandedObjectRun {
  import opened ObjectGc

  const FILE := State(map[100 := 7], map[7 := Object(1, 10)], map[], map[1 := 10], map[], map[], map[], {}, {1}, {})

  function PurgedWhileHeld(sweeps: map<EventId, Sweeping>): State {
    FILE.(versions := map[], pending := map[900 := Sweep], copies := map[5 := Copying({7}, map[101 := 7])],
          sweeps := sweeps)
  }

  lemma UploadOne()
    ensures Leads(EMPTY, FILE)
  {
    var s := EMPTY.(disk := map[1 := 10], uploads := map[1 := 10], published := {1});
    OneStep(EMPTY, Publish(1, 10), s);
    OneStep(s, UploadCommit(1, 7, 100), FILE);
    Joined(EMPTY, s, FILE);
  }

  lemma ReadOne() returns (s: State)
    ensures Leads(FILE, s) && s == FILE.(copies := map[5 := Copying({7}, map[])])
  {
    assert FILE.versions[100] == 7;
    s := FILE.(copies := map[5 := Copying({7}, map[])]);
    OneStep(FILE, CopyRead(5, {7}), s);
  }

  lemma HoldOne(s: State)
    requires s == FILE.(copies := map[5 := Copying({7}, map[])])
    ensures Leads(s, PurgedWhileHeld(map[]))
  {
    var t := FILE.(copies := map[5 := Copying({7}, map[101 := 7])]);
    OneStep(s, CopyInsert(5, 101, 7), t);
    OneStep(t, Purge({100}, 900), PurgedWhileHeld(map[]));
    Joined(s, t, PurgedWhileHeld(map[]));
  }

  lemma SeeOne()
    ensures Leads(PurgedWhileHeld(map[]), PurgedWhileHeld(map[900 := Reading({7})]))
  {
    assert Orphans(PurgedWhileHeld(map[])) == {7};
    OneStep(PurgedWhileHeld(map[]), SweepRead(900), PurgedWhileHeld(map[900 := Reading({7})]));
  }

  lemma SkipOne()
    ensures Leads(PurgedWhileHeld(map[900 := Reading({7})]), PurgedWhileHeld(map[900 := Claimed({}, {})]))
  {
    var s := PurgedWhileHeld(map[900 := Reading({7})]);
    assert s.copies[5].held[101] == 7;
    assert Free(s, {7}) == {};
    OneStep(s, SweepClaim(900, {}, {}, 1), PurgedWhileHeld(map[900 := Claimed({}, {})]));
  }

  /** A sweep that found nothing to lock is acknowledged. */
  lemma NothingToDetach(s: State, e: EventId)
    requires e in s.sweeps && s.sweeps[e] == Claimed({}, {})
    ensures DetachRows(s, e, NO_JOBS) == s.(pending := s.pending - {e}, sweeps := s.sweeps - {e})
  {
    assert Detached(s, {}) == {};
    assert Requests(s.objects, NO_JOBS) == map[];
  }

  lemma NoJobs(s: State)
    ensures OneJobEach(s.pending, NO_JOBS, Detached(s, {}))
  {
    assert Detached(s, {}) == {};
  }

  lemma PassOne() returns (s: State)
    ensures Leads(PurgedWhileHeld(map[900 := Claimed({}, {})]), s) && s == PurgedWhileHeld(map[]).(pending := map[])
  {
    var r := PurgedWhileHeld(map[900 := Claimed({}, {})]);
    NothingToDetach(r, 900);
    NoJobs(r);
    s := r.(pending := r.pending - {900}, sweeps := r.sweeps - {900});
    OneStep(r, SweepCommit(900, NO_JOBS), s);
  }

  lemma AbortOne(s: State)
    requires s == PurgedWhileHeld(map[]).(pending := map[])
    ensures Leads(s, FILE.(versions := map[]))
  {
    OneStep(s, CopyAbort(5), FILE.(versions := map[]));
  }

  /**
   The losing interleaving: a copy inserts its reference, the last committed version is
   purged, the sweep skips the locked object and is acknowledged, and the copy aborts.
   The object and its bytes stay, with no event left that would ever look at them.
   */
  lemma AbortedCopyStrandsObject() returns (last: State)
    ensures Leads(EMPTY, last)
    ensures Orphan(last, 7) && last.pending == map[] && last.copies == map[] && last.sweeps == map[] && 1 in last.disk
  {
    UploadOne();
    var s := ReadOne();
    Joined(EMPTY, FILE, s);
    HoldOne(s);
    Joined(EMPTY, s, PurgedWhileHeld(map[]));
    SeeOne();
    Joined(EMPTY, PurgedWhileHeld(map[]), PurgedWhileHeld(map[900 := Reading({7})]));
    SkipOne();
    Joined(EMPTY, PurgedWhileHeld(map[900 := Reading({7})]), PurgedWhileHeld(map[900 := Claimed({}, {})]));
    s := PassOne();
    Joined(EMPTY, PurgedWhileHeld(map[900 := Claimed({}, {})]), s);
    AbortOne(s);
    last := FILE.(versions := map[]);
    Joined(EMPTY, s, last);
  }
}
