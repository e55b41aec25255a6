/**
 The outbox consumer as it runs: one bounded polling cycle after another, each event in
 a transaction of its own. Every cycle is a run of the protocol of module ObjectGc, and a
 worker that meets no failure drains the outbox.
 */
module OutboxWorker {
  import opened Outcomes
  import opened ObjectGc

  datatype EventRow = EventRow(job: Job, createdAt: int, attempts: nat)

  /** What befalls one event: nothing, another worker's lease, or an exception, perhaps after the bytes are gone. */
  datatype Luck = Smooth | LeasedElsewhere | Outage(erased: bool)

  datatype Outcome = Outcome(claimed: bool, processed: nat, deferred: nat, failed: nat, metadata: nat, physical: nat)

  datatype Report = Report(seen: nat, processed: nat, deferred: nat, failed: nat, metadata: nat, physical: nat)

  const UNCLAIMED := Outcome(false, 0, 0, 0, 0, 0)
  const FAILED := Outcome(true, 0, 0, 1, 0, 0)

  function Pending(events: map<EventId, EventRow>): map<EventId, Job> {
    map e | e in events :: events[e].job
  }

  /** Rows that stay are not touched, and new ones begin at `now` without an attempt. */
  ghost predicate Dated(before: map<EventId, EventRow>, after: map<EventId, EventRow>, now: int) {
    forall e | e in after ::
      if e in before then after[e] == before[e] else after[e].createdAt == now && after[e].attempts == 0
  }

  /** The pending events that ask for bytes to be deleted. */
  function Deletes(pending: map<EventId, Job>): set<EventId> {
    set e | e in pending && pending[e].Delete?
  }

  /** Work left: each orphan still needs a sweep and a delete, each event one delivery. */
  function Work(s: State): nat {
    2 * |Orphans(s)| + |s.pending|
  }

  // ---------------------------------------------------------------------------------
  // A sweep that meets no other transaction
  // ---------------------------------------------------------------------------------

  /** What a lone sweep makes of the tables: the batch goes, its delete requests come. */
  function Swept(s: State, e: EventId, batch: set<ObjectId>, jobs: Jobs, more: bool): State {
    s.(objects := s.objects - batch,
       pending := (if more then s.pending else s.pending - {e}) + Requests(s.objects, jobs))
  }

  ghost predicate LoneClaim(s: State, e: EventId, taken: set<ObjectId>, batch: set<ObjectId>, limit: nat,
                            jobs: Jobs) {
    && s.copies == map[] && s.sweeps == map[]
    && e in s.pending && s.pending[e].Sweep?
    && Claims(Orphans(s), taken, batch, limit) && OneJobEach(s.pending, jobs, batch)
  }

  function Seen(s: State, e: EventId): State {
    s.(sweeps := map[e := Reading(Orphans(s))])
  }

  function Taken(s: State, e: EventId, taken: set<ObjectId>, batch: set<ObjectId>): State {
    s.(sweeps := map[e := Claimed(taken, batch)])
  }

  lemma ReadAlone(s: State, e: EventId)
    requires s.sweeps == map[] && e in s.pending && s.pending[e].Sweep?
    ensures Next(s, SweepRead(e), Seen(s, e))
  {
  }

  lemma ClaimAlone(s: State, e: EventId, taken: set<ObjectId>, batch: set<ObjectId>, limit: nat)
    requires s.copies == map[] && Claims(Orphans(s), taken, batch, limit)
    ensures Next(Seen(s, e), SweepClaim(e, taken, batch, limit), Taken(s, e, taken, batch))
  {
    assert Free(Seen(s, e), Orphans(s)) == Orphans(s);
    assert Seen(s, e).sweeps[e := Claimed(taken, batch)] == map[e := Claimed(taken, batch)];
  }

  lemma DetachAlone(s: State, e: EventId, taken: set<ObjectId>, batch: set<ObjectId>, jobs: Jobs)
    requires batch <= Orphans(s) && s.sweeps == map[]
    ensures Detached(Taken(s, e, taken, batch), batch) == batch
    ensures DetachRows(Taken(s, e, taken, batch), e, jobs) == Swept(s, e, batch, jobs, taken != batch)
  {
    var t := Taken(s, e, taken, batch);
    assert Detached(t, batch) == batch;
    assert t.sweeps - {e} == map[];
    assert Requests(t.objects, jobs) == Requests(s.objects, jobs);
  }

  lemma CommitAlone(s: State, e: EventId, taken: set<ObjectId>, batch: set<ObjectId>, jobs: Jobs)
    requires s.sweeps == map[] && batch <= Orphans(s) && OneJobEach(s.pending, jobs, batch)
    ensures Next(Taken(s, e, taken, batch), SweepCommit(e, jobs), Swept(s, e, batch, jobs, taken != batch))
  {
    DetachAlone(s, e, taken, batch, jobs);
  }

  lemma TwoSteps(s: State, first: Step, t: State, second: Step, u: State)
    requires Safe(s) && Next(s, first, t) && Next(t, second, u) && !first.CopyAbort? && !second.CopyAbort?
    ensures Leads(s, u) && Safe(u) && (Covered(s) ==> Covered(u))
  {
    OneStep(s, first, t);
    OneStep(t, second, u);
    Joined(s, t, u);
    NextKeeps(s, first, t);
    NextKeeps(t, second, u);
    if Covered(s) {
      CoverageIff(s, first, t);
      CoverageIff(t, second, u);
    }
  }

  /** The sweep reads, locks and commits: three steps of the protocol. */
  lemma SweptIsThreeSteps(s: State, e: EventId, taken: set<ObjectId>, batch: set<ObjectId>, limit: nat, jobs: Jobs)
    requires Safe(s) && LoneClaim(s, e, taken, batch, limit, jobs)
    ensures var s' := Swept(s, e, batch, jobs, taken != batch);
            Leads(s, s') && Safe(s') && (Covered(s) ==> Covered(s'))
  {
    var read, locked, s' := Seen(s, e), Taken(s, e, taken, batch), Swept(s, e, batch, jobs, taken != batch);
    ReadAlone(s, e);
    ClaimAlone(s, e, taken, batch, limit);
    CommitAlone(s, e, taken, batch, jobs);
    TwoSteps(s, SweepRead(e), read, SweepClaim(e, taken, batch, limit), locked);
    OneStep(locked, SweepCommit(e, jobs), s');
    Joined(s, locked, s');
    NextKeeps(locked, SweepCommit(e, jobs), s');
    if Covered(s) { CoverageIff(locked, SweepCommit(e, jobs), s'); }
  }

  lemma MergeCount<K, V>(a: map<K, V>, b: map<K, V>)
    requires a.Keys !! b.Keys
    ensures |a + b| == |a| + |b|
  {
    assert (a + b).Keys == a.Keys + b.Keys;
    assert |a.Keys + b.Keys| == |a.Keys| + |b.Keys|;
  }

  lemma DropCount<K, V>(a: map<K, V>, gone: set<K>)
    requires gone <= a.Keys
    ensures |a - gone| == |a| - |gone|
  {
    assert (a - gone).Keys == a.Keys - gone;
    assert |a.Keys - gone| == |a.Keys| - |gone|;
  }

  lemma RequestsCount(objects: map<ObjectId, Object>, pending: map<EventId, Job>, jobs: Jobs, gone: set<ObjectId>)
    requires OneJobEach(pending, jobs, gone) && gone <= objects.Keys
    ensures |Requests(objects, jobs)| == |jobs.of| && pending.Keys !! Requests(objects, jobs).Keys
  {
    assert Requests(objects, jobs).Keys == jobs.of.Keys;
  }

  lemma PendingCount(pending: map<EventId, Job>, requests: map<EventId, Job>, e: EventId)
    requires pending.Keys !! requests.Keys && e in pending
    ensures |pending + requests| == |pending| + |requests|
    ensures |pending - {e} + requests| == |pending| + |requests| - 1
  {
    DropCount(pending, {e});
    MergeCount(pending, requests);
    MergeCount(pending - {e}, requests);
  }

  lemma SweptRows(s: State, e: EventId, batch: set<ObjectId>, jobs: Jobs, more: bool)
    requires batch <= s.objects.Keys && OneJobEach(s.pending, jobs, batch) && e in s.pending
    ensures |Swept(s, e, batch, jobs, more).objects| == |s.objects| - |batch|
    ensures |Swept(s, e, batch, jobs, more).pending| == |s.pending| + |batch| - (if more then 0 else 1)
  {
    JobsCount(s.pending, jobs, batch);
    RequestsCount(s.objects, s.pending, jobs, batch);
    PendingCount(s.pending, Requests(s.objects, jobs), e);
    DropCount(s.objects, batch);
  }

  /** Each detached object adds one delete event, and a sweep takes none away. */
  lemma SweptDeletes(s: State, e: EventId, batch: set<ObjectId>, jobs: Jobs, more: bool)
    requires batch <= s.objects.Keys && OneJobEach(s.pending, jobs, batch) && e in s.pending && s.pending[e].Sweep?
    ensures |Deletes(Swept(s, e, batch, jobs, more).pending)| == |Deletes(s.pending)| + |batch|
  {
    JobsCount(s.pending, jobs, batch);
    RequestsCount(s.objects, s.pending, jobs, batch);
    DeletesJoined(s.pending, Requests(s.objects, jobs), e, more);
  }

  lemma DeletesJoined(pending: map<EventId, Job>, requests: map<EventId, Job>, e: EventId, more: bool)
    requires pending.Keys !! requests.Keys && e in pending && pending[e].Sweep?
    requires forall r | r in requests :: requests[r].Delete?
    ensures |Deletes((if more then pending else pending - {e}) + requests)| == |Deletes(pending)| + |requests|
  {
    SweepDropped(pending, e);
    DeletesAdded(if more then pending else pending - {e}, requests);
  }

  lemma SweepDropped(pending: map<EventId, Job>, e: EventId)
    requires e in pending && pending[e].Sweep?
    ensures Deletes(pending - {e}) == Deletes(pending)
  {
  }

  lemma DeletesAdded(pending: map<EventId, Job>, requests: map<EventId, Job>)
    requires pending.Keys !! requests.Keys && forall r | r in requests :: requests[r].Delete?
    ensures |Deletes(pending + requests)| == |Deletes(pending)| + |requests|
  {
    var kept, added := Deletes(pending), requests.Keys;
    assert Deletes(pending + requests) == kept + added;
    assert kept !! added;
    assert |kept + added| == |kept| + |added|;
  }

  lemma FewerOrphans(objects: map<ObjectId, Object>, versions: map<VersionId, ObjectId>, batch: set<ObjectId>)
    ensures (set o | o in objects - batch && !Refers(versions, o))
            == (set o | o in objects && !Refers(versions, o)) - batch
  {
  }

  lemma OrphansLeft(s: State, e: EventId, taken: set<ObjectId>, batch: set<ObjectId>, jobs: Jobs, more: bool)
    requires batch <= Orphans(s)
    ensures |Orphans(Swept(s, e, batch, jobs, more))| == |Orphans(s)| - |batch|
  {
    FewerOrphans(s.objects, s.versions, batch);
    assert Orphans(Swept(s, e, batch, jobs, more)) == Orphans(s) - batch;
    assert |Orphans(s) - batch| == |Orphans(s)| - |batch|;
  }

  /** A sweep turns each detached object into one delete; the work left shrinks either way. */
  lemma SweptWork(s: State, e: EventId, taken: set<ObjectId>, batch: set<ObjectId>, limit: nat, jobs: Jobs)
    requires LoneClaim(s, e, taken, batch, limit, jobs)
    ensures Work(Swept(s, e, batch, jobs, taken != batch)) < Work(s)
  {
    assert Orphans(s) <= s.objects.Keys;
    SweptRows(s, e, batch, jobs, taken != batch);
    OrphansLeft(s, e, taken, batch, jobs, taken != batch);
  }

  lemma DropCommutes(pending: map<EventId, Job>, requests: map<EventId, Job>, e: EventId)
    requires e !in requests
    ensures pending + requests - {e} == pending - {e} + requests
  {
  }

  lemma NotRequested(s: State, e: EventId, jobs: Jobs, batch: set<ObjectId>)
    requires OneJobEach(s.pending, jobs, batch) && e in s.pending
    ensures e !in Requests(s.objects, jobs)
  {
  }

  /** Everything a finished sweep guarantees, from the rows it left. */
  lemma SweepDone(s: State, e: EventId, taken: set<ObjectId>, batch: set<ObjectId>, limit: nat, jobs: Jobs, s': State)
    requires LoneClaim(s, e, taken, batch, limit, jobs)
    requires s'.objects == s.objects - batch
    requires var all := s.pending + Requests(s.objects, jobs);
             s'.pending == if taken != batch then all else all - {e}
    requires s' == s.(objects := s'.objects, pending := s'.pending)
    ensures s' == Swept(s, e, batch, jobs, taken != batch)
  {
    NotRequested(s, e, jobs, batch);
    DropCommutes(s.pending, Requests(s.objects, jobs), e);
  }

  lemma PendingUpdate(events: map<EventId, EventRow>, e: EventId, row: EventRow)
    ensures Pending(events[e := row]) == Pending(events)[e := row.job]
  {
  }

  lemma DropPending(events: map<EventId, EventRow>, e: EventId)
    ensures Pending(events - {e}) == Pending(events) - {e}
  {
  }

  /** One object and its request, added to what the sweep has done so far. */
  lemma OneMoreJob(pending: map<EventId, Job>, jobs: Jobs, gone: set<ObjectId>, n: EventId, o: ObjectId)
    requires OneJobEach(pending, jobs, gone) && o !in gone && n !in jobs.of && n !in pending
    ensures OneJobEach(pending, Jobs(jobs.of[n := o], jobs.at[o := n]), gone + {o})
  {
    var jobs' := Jobs(jobs.of[n := o], jobs.at[o := n]);
    forall p | p in gone + {o} ensures Asked(jobs', p) {
      if p != o {
        assert Asked(jobs, p);
      }
    }
    forall e | e in jobs'.of ensures e !in pending && jobs'.of[e] in gone + {o} && Answers(jobs', e) {
      if e != n {
        assert Answers(jobs, e);
      }
    }
  }

  lemma OneMoreRequest(objects: map<ObjectId, Object>, jobs: Jobs, n: EventId, o: ObjectId)
    requires n !in jobs.of && o in objects
    ensures Requests(objects, Jobs(jobs.of[n := o], jobs.at[o := n]))
            == Requests(objects, jobs)[n := Delete(objects[o].key)]
  {
  }

  /** How far a sweep has come: the requests for `gone` stand beside what was pending before. */
  ghost predicate Batched(before: map<EventId, Job>, objects: map<ObjectId, Object>, jobs: Jobs, gone: set<ObjectId>,
                          next: EventId, now: map<EventId, Job>) {
    && OneJobEach(before, jobs, gone)
    && now == before + Requests(objects, jobs)
    && forall e | e in jobs.of || e in before :: e < next
  }

  lemma BatchedStart(before: map<EventId, Job>, objects: map<ObjectId, Object>, next: EventId)
    requires forall e | e in before :: e < next
    ensures Batched(before, objects, NO_JOBS, {}, next, before)
  {
    assert Requests(objects, NO_JOBS) == map[];
  }

  /** What is left of a claim when each object is looked at again. */
  function Unreferenced(versions: map<VersionId, ObjectId>, batch: set<ObjectId>): set<ObjectId> {
    set o | o in batch && !Refers(versions, o)
  }

  lemma LoneBatch(s: State, batch: set<ObjectId>)
    requires batch <= Orphans(s)
    ensures Unreferenced(s.versions, batch) == batch && batch <= s.objects.Keys
  {
  }

  lemma OneLessLeft(versions: map<VersionId, ObjectId>, batch: set<ObjectId>, left: set<ObjectId>, o: ObjectId)
    requires o in left && left <= batch
    ensures var gone, more := Unreferenced(versions, batch - left), Unreferenced(versions, batch - (left - {o}));
            && o !in gone
            && (Refers(versions, o) ==> more == gone)
            && (!Refers(versions, o) ==> more == gone + {o} && |more| == |gone| + 1)
  {
    assert batch - (left - {o}) == batch - left + {o};
    assert Unreferenced(versions, batch - left + {o}) ==
           Unreferenced(versions, batch - left) + (if Refers(versions, o) then {} else {o});
  }

  lemma BatchedStep(before: map<EventId, Job>, objects: map<ObjectId, Object>, jobs: Jobs, gone: set<ObjectId>,
                    next: EventId, now: map<EventId, Job>, o: ObjectId)
    requires Batched(before, objects, jobs, gone, next, now) && o in objects && o !in gone
    ensures Batched(before, objects, Jobs(jobs.of[next := o], jobs.at[o := next]), gone + {o}, next + 1,
                    now[next := Delete(objects[o].key)])
  {
    OneMoreJob(before, jobs, gone, next, o);
    OneMoreRequest(objects, jobs, next, o);
  }

  lemma {:induction false} JobsCount(pending: map<EventId, Job>, jobs: Jobs, gone: set<ObjectId>)
    requires OneJobEach(pending, jobs, gone)
    ensures |jobs.of| == |gone|
    decreases gone
  {
    if gone == {} {
      assert jobs.of.Keys == {};
    } else {
      var o :| o in gone;
      assert Asked(jobs, o);
      var e := jobs.at[o];
      var rest := Jobs(jobs.of - {e}, jobs.at - {o});
      OneLessJob(pending, jobs, gone, o);
      JobsCount(pending, rest, gone - {o});
      DropCount(jobs.of, {e});
    }
  }

  lemma OneLessJob(pending: map<EventId, Job>, jobs: Jobs, gone: set<ObjectId>, o: ObjectId)
    requires OneJobEach(pending, jobs, gone) && o in gone && o in jobs.at
    ensures OneJobEach(pending, Jobs(jobs.of - {jobs.at[o]}, jobs.at - {o}), gone - {o})
  {
    var rest := Jobs(jobs.of - {jobs.at[o]}, jobs.at - {o});
    assert Asked(jobs, o);
    forall p | p in gone - {o} ensures Asked(rest, p) {
      assert Asked(jobs, p);
    }
    forall f | f in rest.of ensures f !in pending && rest.of[f] in gone - {o} && Answers(rest, f) {
      assert Answers(jobs, f);
    }
  }

  /** The physical delete of one event, with or without its acknowledgement. */
  lemma ErasedIsTwoSteps(s: State, e: EventId)
    requires Safe(s) && s.erased == {} && e in s.pending && s.pending[e].Delete?
    ensures Leads(s, s.(disk := s.disk - {s.pending[e].key}, pending := s.pending - {e}))
    ensures Leads(s, s.(disk := s.disk - {s.pending[e].key}))
    ensures Safe(s.(disk := s.disk - {s.pending[e].key}, pending := s.pending - {e}))
    ensures Safe(s.(disk := s.disk - {s.pending[e].key}))
    ensures Covered(s) ==> Covered(s.(disk := s.disk - {s.pending[e].key}, pending := s.pending - {e}))
    ensures Covered(s) ==> Covered(s.(disk := s.disk - {s.pending[e].key}))
  {
    var t := s.(disk := s.disk - {s.pending[e].key}, erased := {e});
    var acknowledged := s.(disk := s.disk - {s.pending[e].key}, pending := s.pending - {e});
    var crashed := s.(disk := s.disk - {s.pending[e].key});
    TwoSteps(s, EraseBytes(e), t, Acknowledge(e), acknowledged);
    TwoSteps(s, EraseBytes(e), t, EraseCrash(e), crashed);
  }

  /** One claimed event without failure: a run of the protocol, with less work left and the counts to show for it. */
  ghost predicate Advances(s: State, s': State, outcome: Outcome) {
    && Leads(s, s') && Safe(s') && (Covered(s) ==> Covered(s'))
    && s'.versions == s.versions
    && outcome.processed + outcome.deferred == 1 && Work(s') < Work(s)
    && |s'.objects| == |s.objects| - outcome.metadata
    && |s'.pending| == |s.pending| + outcome.metadata - outcome.processed
    && |Deletes(s'.pending)| == |Deletes(s.pending)| + outcome.metadata - outcome.physical
  }

  lemma SweepAdvances(s: State, e: EventId, taken: set<ObjectId>, batch: set<ObjectId>, limit: nat, jobs: Jobs,
                      s': State)
    requires Safe(s) && LoneClaim(s, e, taken, batch, limit, jobs)
    requires s'.objects == s.objects - batch
    requires var all := s.pending + Requests(s.objects, jobs);
             s'.pending == if taken != batch then all else all - {e}
    requires s' == s.(objects := s'.objects, pending := s'.pending)
    ensures var more := if taken != batch then 1 else 0;
            Advances(s, s', Outcome(true, 1 - more, more, 0, |batch|, 0))
  {
    assert Orphans(s) <= s.objects.Keys;
    SweepDone(s, e, taken, batch, limit, jobs, s');
    SweptIsThreeSteps(s, e, taken, batch, limit, jobs);
    SweptWork(s, e, taken, batch, limit, jobs);
    SweptRows(s, e, batch, jobs, taken != batch);
    SweptDeletes(s, e, batch, jobs, taken != batch);
  }

  lemma DeleteWork(s: State, e: EventId, disk: map<Key, nat>)
    requires e in s.pending
    ensures var s' := s.(disk := disk, pending := s.pending - {e});
            |s'.pending| == |s.pending| - 1 && Work(s') == Work(s) - 1
  {
    var s' := s.(disk := disk, pending := s.pending - {e});
    DropCount(s.pending, {e});
    assert Orphans(s') == Orphans(s);
  }

  lemma DeleteAdvances(s: State, e: EventId)
    requires Safe(s) && s.erased == {} && e in s.pending && s.pending[e].Delete?
    ensures Advances(s, s.(disk := s.disk - {s.pending[e].key}, pending := s.pending - {e}),
                     Outcome(true, 1, 0, 0, 0, 1))
  {
    assert Deletes(s.pending - {e}) == Deletes(s.pending) - {e};
    ErasedIsTwoSteps(s, e);
    DeleteWork(s, e, s.disk - {s.pending[e].key});
  }

  /** A failed event: at most its bytes are gone, and it stays pending. */
  ghost predicate Halts(s: State, s': State) {
    && Leads(s, s') && Safe(s') && (Covered(s) ==> Covered(s'))
    && s'.versions == s.versions && s'.objects == s.objects && s'.pending == s.pending
  }

  lemma EraseHalts(s: State, e: EventId)
    requires Safe(s) && s.erased == {} && e in s.pending && s.pending[e].Delete?
    ensures Halts(s, s.(disk := s.disk - {s.pending[e].key}))
  {
    ErasedIsTwoSteps(s, e);
  }

  function Counted(r: Report, o: Outcome): Report {
    Report(r.seen + 1, r.processed + o.processed, r.deferred + o.deferred, r.failed + o.failed,
           r.metadata + o.metadata, r.physical + o.physical)
  }

  /** What a cycle's report says about the state it started from and the one it left. */
  ghost predicate Progress(s: State, s': State, r: Report) {
    && Leads(s, s') && (Covered(s) ==> Covered(s')) && s'.versions == s.versions
    && r.seen == r.processed + r.deferred + r.failed
    && |s'.objects| == |s.objects| - r.metadata
    && |s'.pending| == |s.pending| + r.metadata - r.processed
    && |Deletes(s'.pending)| == |Deletes(s.pending)| + r.metadata - r.physical
    && Work(s') + r.processed + r.deferred <= Work(s)
  }

  lemma ProgressThen(s: State, t: State, u: State, r: Report, o: Outcome)
    requires Progress(s, t, r)
    requires (o.failed == 0 && Advances(t, u, o)) || (o == FAILED && Halts(t, u))
    ensures Progress(s, u, Counted(r, o))
  {
    Joined(s, t, u);
    if o == FAILED {
      assert Orphans(u) == Orphans(t);
    }
  }

  lemma NothingPending(start: State, s: State)
    requires Leads(start, s) && Safe(start) && Accounted(start)
    requires s.pending == map[] && s.copies == map[] && Covered(s)
    ensures Orphans(s) == {}
    ensures forall k | k in s.disk ::
              k in s.uploads || k in s.abandoned || exists o | o in s.objects :: s.objects[o].key == k
  {
    LeadsAccounts(start, s);
    forall o | o in s.objects ensures !Orphan(s, o) {
      assert !Held(s, o) && !Carried(s, o);
    }
    forall k | k in s.disk
      ensures k in s.uploads || k in s.abandoned || exists o | o in s.objects :: s.objects[o].key == k
    {
      assert Owned(s, k);
    }
  }

  lemma Stays(s: State)
    ensures Leads(s, s)
  {
    assert IsRun([s], []);
  }

  // ---------------------------------------------------------------------------------
  // The consumer
  // ---------------------------------------------------------------------------------

  /** The tables and files a worker sees while no other transaction is open. */
  class Worker {
    var versions: map<VersionId, ObjectId>
    var objects: map<ObjectId, Object>
    var events: map<EventId, EventRow>
    var disk: map<Key, nat>
    var nextId: EventId
    ghost const uploads: map<Key, nat>
    ghost const published: set<Key>
    ghost const abandoned: set<Key>

    ghost function AsState(): State
      reads this
    {
      State(versions, objects, Pending(events), disk, map[], uploads, map[], {}, published, abandoned)
    }

    ghost predicate Valid()
      reads this
    {
      Safe(AsState()) && forall e | e in events :: e < nextId
    }

    /** The oldest pending event of one type, ties broken by identifier. */
    method Oldest(deletes: bool) returns (m: Option<EventId>)
      ensures m.None? ==> forall e | e in events :: events[e].job.Delete? != deletes
      ensures m.Some? ==> m.value in events && events[m.value].job.Delete? == deletes
      ensures m.Some? ==> forall e | e in events && events[e].job.Delete? == deletes ::
                events[m.value].createdAt < events[e].createdAt
                || (events[m.value].createdAt == events[e].createdAt && m.value <= e)
    {
      m := None;
      var left := events.Keys;
      while left != {}
        invariant left <= events.Keys
        invariant m.None? ==> forall e | e in events.Keys - left :: events[e].job.Delete? != deletes
        invariant m.Some? ==> m.value in events && events[m.value].job.Delete? == deletes
        invariant m.Some? ==> forall e | e in events.Keys - left && events[e].job.Delete? == deletes ::
                    events[m.value].createdAt < events[e].createdAt
                    || (events[m.value].createdAt == events[e].createdAt && m.value <= e)
      {
        var e :| e in left;
        left := left - {e};
        if events[e].job.Delete? == deletes
           && (m.None? || events[e].createdAt < events[m.value].createdAt
               || (events[e].createdAt == events[m.value].createdAt && e < m.value)) {
          m := Some(e);
        }
      }
    }

    /** Deletes come first; nothing is returned only when nothing is pending. */
    method NextPending() returns (m: Option<EventId>)
      ensures m.None? <==> events == map[]
      ensures m.Some? ==> m.value in events
      ensures m.Some? && events[m.value].job.Sweep? ==> forall e | e in events :: events[e].job.Sweep?
    {
      m := Oldest(true);
      if m.None? {
        m := Oldest(false);
        if m.None? {
          assert forall e | e in events :: events[e].job.Delete?;
        }
      }
    }

    /** Up to `limit` unreferenced objects, and whether one more could be locked. */
    method ClaimOrphans(limit: nat) returns (batch: set<ObjectId>, more: bool, ghost taken: set<ObjectId>)
      requires 1 <= limit
      ensures Claims(Orphans(AsState()), taken, batch, limit)
      ensures batch <= Orphans(AsState()) && |batch| == Least(limit, |Orphans(AsState())|)
      ensures (more <==> taken != batch) && (more <==> |Orphans(AsState())| > limit)
    {
      var orphans := set o | o in objects && !Refers(versions, o);
      assert orphans == Orphans(AsState());
      batch, more, taken := FirstOf(orphans, limit);
    }

    /** Delete one row and ask, in the same transaction, for its bytes to be deleted. */
    method DetachOne(o: ObjectId, now: int)
      requires o in objects
      modifies this`objects, this`events, this`nextId
      ensures objects == old(objects) - {o} && nextId == old(nextId) + 1
      ensures Pending(events) == old(Pending(events))[old(nextId) := Delete(old(objects)[o].key)]
      ensures events == old(events)[old(nextId) := EventRow(Delete(old(objects)[o].key), now, 0)]
    {
      PendingUpdate(events, nextId, EventRow(Delete(objects[o].key), now, 0));
      events := events[nextId := EventRow(Delete(objects[o].key), now, 0)];
      objects := objects - {o};
      nextId := nextId + 1;
    }

    /** Detach one claimed object, unless a concurrent reference won the race. */
    method DetachNext(o: ObjectId, now: int, ghost before: map<EventId, Job>, ghost rows: map<ObjectId, Object>,
                      ghost jobs: Jobs, ghost gone: set<ObjectId>) returns (detached: nat, ghost jobs': Jobs)
      requires o in objects && o in rows && rows[o] == objects[o] && o !in gone
      requires Batched(before, rows, jobs, gone, nextId, Pending(events))
      modifies this`objects, this`events, this`nextId
      ensures Refers(versions, o) ==>
                detached == 0 && objects == old(objects)
                && Pending(events) == old(Pending(events))
      ensures !Refers(versions, o) ==> detached == 1 && objects == old(objects) - {o}
      ensures Dated(old(events), events, now) && old(events).Keys <= events.Keys
      ensures Batched(before, rows, jobs', if Refers(versions, o) then gone else gone + {o}, nextId, Pending(events))
    {
      jobs' := jobs;
      detached := 0;
      if !Refers(versions, o) {
        BatchedStep(before, rows, jobs, gone, nextId, Pending(events), o);
        assert nextId !in Pending(events);
        jobs' := Jobs(jobs.of[nextId := o], jobs.at[o := nextId]);
        DetachOne(o, now);
        detached := 1;
      }
    }

    /** Detach every claimed object that is still unreferenced. */
    method DetachAll(batch: set<ObjectId>, now: int) returns (detached: nat, ghost jobs: Jobs)
      requires forall e | e in Pending(events) :: e < nextId
      requires batch <= objects.Keys
      modifies this`objects, this`events, this`nextId
      ensures OneJobEach(old(Pending(events)), jobs, Unreferenced(versions, batch))
      ensures detached == |Unreferenced(versions, batch)|
      ensures objects == old(objects) - Unreferenced(versions, batch)
      ensures Pending(events) == old(Pending(events)) + Requests(old(objects), jobs)
      ensures Dated(old(events), events, now) && old(events).Keys <= events.Keys
      ensures forall e | e in Pending(events) :: e < nextId
    {
      detached, jobs := 0, NO_JOBS;
      ghost var before, rows := Pending(events), objects;
      ghost var gone: set<ObjectId> := {};
      var left := batch;
      BatchedStart(before, rows, nextId);
      while left != {}
        invariant left <= batch && gone == Unreferenced(versions, batch - left) && detached == |gone|
        invariant objects == rows - gone
        invariant Dated(old(events), events, now) && old(events).Keys <= events.Keys
        invariant Batched(before, rows, jobs, gone, nextId, Pending(events))
      {
        var o :| o in left;
        var n;
        n, jobs := DetachNext(o, now, before, rows, jobs, gone);
        OneLessLeft(versions, batch, left, o);
        gone := Unreferenced(versions, batch - (left - {o}));
        left := left - {o};
        detached := detached + n;
      }
      assert batch - left == batch;
    }

    /** What the sweep writes: rows gone, requests added, and its own event acknowledged unless more is left. */
    method SweepRows(e: EventId, batch: set<ObjectId>, more: bool, now: int) returns (detached: nat, ghost jobs: Jobs)
      requires forall f | f in Pending(events) :: f < nextId
      requires batch <= objects.Keys && e in events
      modifies this`objects, this`events, this`nextId
      ensures OneJobEach(old(Pending(events)), jobs, Unreferenced(versions, batch))
      ensures detached == |Unreferenced(versions, batch)|
      ensures objects == old(objects) - Unreferenced(versions, batch)
      ensures var all := old(Pending(events)) + Requests(old(objects), jobs);
              Pending(events) == if more then all else all - {e}
      ensures Dated(old(events), events, now)
      ensures forall f | f in Pending(events) :: f < nextId
    {
      detached, jobs := DetachAll(batch, now);
      if !more {
        DropPending(events, e);
        events := events - {e};
      }
    }

    /** One sweep event: the whole transaction. */
    method ProcessSweep(e: EventId, limit: nat, now: int) returns (outcome: Outcome)
      requires Valid() && e in events && events[e].job.Sweep? && 1 <= limit
      modifies this`objects, this`events, this`nextId
      ensures Advances(old(AsState()), AsState(), outcome) && forall f | f in Pending(events) :: f < nextId
      ensures outcome.claimed && outcome.failed == 0 && outcome.physical == 0
      ensures Dated(old(events), events, now)
    {
      ghost var s := AsState();
      var batch, more, taken := ClaimOrphans(limit);
      assert Unreferenced(versions, batch) == batch && batch <= objects.Keys by { LoneBatch(s, batch); }
      var detached, jobs := SweepRows(e, batch, more, now);
      SweepAdvances(s, e, taken, batch, limit, jobs, AsState());
      outcome := Outcome(true, if more then 0 else 1, if more then 1 else 0, 0, detached, 0);
    }

    /** The bytes go first, then the acknowledgement commits. */
    method ProcessDelete(e: EventId) returns (outcome: Outcome)
      requires Valid() && e in events && events[e].job.Delete?
      modifies this`disk, this`events
      ensures Advances(old(AsState()), AsState(), outcome) && forall f | f in Pending(events) :: f < nextId
      ensures outcome.claimed && outcome.failed == 0 && outcome.physical == 1
      ensures events == old(events) - {e} && disk == old(disk) - {old(events)[e].job.key}
    {
      DeleteAdvances(AsState(), e);
      DropPending(events, e);
      disk := disk - {events[e].job.key};
      events := events - {e};
      outcome := Outcome(true, 1, 0, 0, 0, 1);
    }

    /** After the failed transaction has rolled back, count the attempt. */
    method RecordFailure(e: EventId)
      requires e in events
      modifies this`events
      ensures Pending(events) == old(Pending(events))
      ensures events == old(events)[e := old(events)[e].(attempts := old(events)[e].attempts + 1)]
    {
      PendingUpdate(events, e, events[e].(attempts := events[e].attempts + 1));
      assert Pending(events)[e := events[e].job] == Pending(events);
      events := events[e := events[e].(attempts := events[e].attempts + 1)];
    }

    method FailEvent(e: EventId, erased: bool)
      requires Valid() && e in events
      modifies this`disk, this`events
      ensures Halts(old(AsState()), AsState()) && forall f | f in Pending(events) :: f < nextId
      ensures events[e := old(events)[e]] == old(events) && e in events
      ensures events[e].attempts == old(events)[e].attempts + 1
    {
      ghost var s := AsState();
      Stays(s);
      if erased && events[e].job.Delete? {
        EraseHalts(s, e);
        disk := disk - {events[e].job.key};
      }
      RecordFailure(e);
      assert AsState() == if erased && s.pending[e].Delete? then s.(disk := s.disk - {s.pending[e].key}) else s;
    }

    method ProcessMessage(e: EventId, luck: Luck, limit: nat, now: int) returns (outcome: Outcome)
      requires Valid() && e in events && 1 <= limit
      modifies this
      ensures Valid() && AsState().uploads == uploads
      ensures luck.LeasedElsewhere? ==> outcome == UNCLAIMED && AsState() == old(AsState())
      ensures luck.Smooth? ==> outcome.claimed && outcome.failed == 0 && Advances(old(AsState()), AsState(), outcome)
      ensures luck.Smooth? ==> Dated(old(events), events, now)
      ensures luck.Smooth? ==> outcome.physical == if old(events)[e].job.Delete? then 1 else 0
      ensures luck.Outage? ==> outcome == FAILED && Halts(old(AsState()), AsState())
      ensures luck.Outage? ==> e in events && events[e].attempts == old(events)[e].attempts + 1
    {
      match luck
      case LeasedElsewhere =>
        outcome := UNCLAIMED;
      case Outage(erased) =>
        FailEvent(e, erased);
        outcome := FAILED;
        assert forall f | f in events :: f in Pending(events);
      case Smooth =>
        if events[e].job.Sweep? {
          outcome := ProcessSweep(e, limit, now);
        } else {
          outcome := ProcessDelete(e);
        }
        assert forall f | f in events :: f in Pending(events);
    }

    /** One event of a cycle, with what it adds to the cycle's report. */
    method ProcessCounted(e: EventId, luck: Luck, limit: nat, now: int, ghost start: State, ghost r: Report)
      returns (outcome: Outcome)
      requires Valid() && e in events && 1 <= limit && Progress(start, AsState(), r)
      modifies this
      ensures Valid() && outcome.failed <= 1
      ensures !outcome.claimed ==> luck.LeasedElsewhere? && Progress(start, AsState(), r)
      ensures outcome.claimed ==> !luck.LeasedElsewhere? && Progress(start, AsState(), Counted(r, outcome))
      ensures luck.Smooth? ==> outcome.claimed && outcome.failed == 0
      ensures luck.Outage? ==> outcome.failed == 1
    {
      ghost var t := AsState();
      outcome := ProcessMessage(e, luck, limit, now);
      if outcome.claimed {
        ProgressThen(start, t, AsState(), r, outcome);
      }
    }

    /**
     One polling cycle: at most `eventBatch` events, stopping early when nothing is pending,
     when the oldest event is leased by another worker, and after a failure.
     */
    method Execute(eventBatch: nat, orphanBatch: nat, luck: seq<Luck>, now: int) returns (r: Report)
      requires Valid() && 1 <= eventBatch <= 200 && 1 <= orphanBatch <= 1000 && |luck| == eventBatch
      modifies this
      ensures Valid() && Progress(old(AsState()), AsState(), r) && r.seen <= eventBatch
      ensures r.failed == 0 && r.seen < eventBatch && LeasedElsewhere !in luck ==> events == map[]
      ensures r.failed <= 1 && StopsAt(luck, r.seen, r.failed)
      ensures (forall l | l in luck :: l.Smooth?) ==> r.failed == 0
    {
      r := Report(0, 0, 0, 0, 0, 0);
      ghost var s := AsState();
      Stays(s);
      var i := 0;
      while i < eventBatch
        invariant Valid() && i <= eventBatch && r.seen == i && r.failed == 0
        invariant StopsAt(luck, i, 0)
        invariant Progress(s, AsState(), r)
        decreases eventBatch - i
      {
        var m := NextPending();
        if m.None? {
          break;
        }
        var outcome := ProcessCounted(m.value, luck[i], orphanBatch, now, s, r);
        if !outcome.claimed {
          break;
        }
        StopsAtNext(luck, i, outcome.failed);
        r := Counted(r, outcome);
        i := i + 1;
        if outcome.failed > 0 {
          break;
        }
      }
    }

    /** One cycle without failure continues the run and leaves less work, or nothing pending. */
    method PollOnce(eventBatch: nat, orphanBatch: nat, now: int, ghost start: State) returns (r: Report)
      requires Valid() && 1 <= eventBatch <= 200 && 1 <= orphanBatch <= 1000
      requires Leads(start, AsState()) && Covered(AsState())
      modifies this
      ensures Valid() && Leads(start, AsState()) && Covered(AsState()) && versions == old(versions)
      ensures events == map[] || Work(AsState()) < old(Work(AsState()))
    {
      ghost var t := AsState();
      r := Execute(eventBatch, orphanBatch, seq(eventBatch, i => Smooth), now);
      Joined(start, t, AsState());
    }

    /** A worker that keeps polling without failure empties the outbox. */
    method PollUntilDrained(eventBatch: nat, orphanBatch: nat, now: int)
      requires Valid() && 1 <= eventBatch <= 200 && 1 <= orphanBatch <= 1000
      requires Covered(AsState()) && Accounted(AsState())
      modifies this
      ensures Valid() && Leads(old(AsState()), AsState()) && AsState().versions == old(AsState()).versions
      ensures events == map[] && Orphans(AsState()) == {}
      ensures forall k | k in disk :: k in uploads || k in abandoned || exists o | o in objects :: objects[o].key == k
    {
      ghost var s := AsState();
      Stays(s);
      while events != map[]
        invariant Valid() && Leads(s, AsState()) && Covered(AsState()) && versions == s.versions
        decreases events != map[], Work(AsState())
      {
        var r := PollOnce(eventBatch, orphanBatch, now, s);
      }
      NothingPending(s, AsState());
    }
  }

  /** Of the events seen, the last may have failed, and all others went smoothly. */
  predicate StopsAt(luck: seq<Luck>, seen: nat, failed: nat) {
    && seen <= |luck| && failed <= 1
    && (forall k | 0 <= k < seen - failed :: luck[k].Smooth?)
    && (failed == 1 ==> seen > 0 && luck[seen - 1].Outage?)
  }

  lemma StopsAtNext(luck: seq<Luck>, i: nat, failed: nat)
    requires StopsAt(luck, i, 0) && i < |luck| && !luck[i].LeasedElsewhere?
    requires failed == if luck[i].Outage? then 1 else 0
    ensures StopsAt(luck, i + 1, failed)
  {
  }

  function Least(m: nat, n: nat): nat {
    if m < n then m else n
  }

  /** At most `limit` of the candidates, with one more as evidence when some are left over. */
  method FirstOf(candidates: set<ObjectId>, limit: nat)
    returns (batch: set<ObjectId>, more: bool, ghost taken: set<ObjectId>)
    requires 1 <= limit
    ensures Claims(candidates, taken, batch, limit)
    ensures batch <= candidates && |batch| == Least(limit, |candidates|)
    ensures (more <==> taken != batch) && (more <==> |candidates| > limit)
  {
    var left := candidates;
    batch := {};
    while left != {} && |batch| < limit
      invariant |batch| <= limit && left <= candidates && batch == candidates - left
      decreases left
    {
      var o :| o in left;
      batch := batch + {o};
      left := left - {o};
    }
    more := left != {};
    taken := batch;
    assert |candidates - left| == |candidates| - |left|;
    if more {
      ghost var o :| o in left;
      taken := batch + {o};
    }
  }
}
