/**
 Garbage collection of stored objects through the transactional outbox, with every
 transaction broken into the steps at which others can interleave: copies read, insert
 under the foreign key and commit; sweeps read, lock and commit; physical deletion and
 its acknowledgement are separate; anything may crash in between.

 Row locks are the ones PostgreSQL takes: an inserted reference keeps its object from
 being claimed, a claimed object cannot be referenced until the claim ends, and a claim
 skips what is locked.
 */
module ObjectGc {
  type VersionId = nat
  type ObjectId = nat
  type EventId = nat
  type CopyId = nat
  type Key = nat

  datatype Object = Object(key: Key, size: nat)

  /** A pending outbox event. */
  datatype Job = Sweep | Delete(key: Key)

  /** A copy knows the objects it read and holds the version rows it inserted. */
  datatype Copying = Copying(wanted: set<ObjectId>, held: map<VersionId, ObjectId>)

  /** A sweep has read the orphans, or has locked `taken` of which it will detach `batch`. */
  datatype Sweeping = Reading(seen: set<ObjectId>) | Claimed(taken: set<ObjectId>, batch: set<ObjectId>)

  /**
   Committed rows (`versions`, `objects`, `pending`), bytes on disk by key, transactions in
   flight, and two records that the system itself does not keep: every key that ever
   received bytes, and the keys whose upload died between publication and commit.
   */
  datatype State = State(
    versions: map<VersionId, ObjectId>, objects: map<ObjectId, Object>, pending: map<EventId, Job>,
    disk: map<Key, nat>,
    copies: map<CopyId, Copying>, uploads: map<Key, nat>, sweeps: map<EventId, Sweeping>, erased: set<EventId>,
    published: set<Key>, abandoned: set<Key>)

  const EMPTY := State(map[], map[], map[], map[], map[], map[], map[], {}, {}, {})

  predicate Refers(rows: map<VersionId, ObjectId>, o: ObjectId) {
    exists v | v in rows :: rows[v] == o
  }

  predicate Orphan(s: State, o: ObjectId) {
    o in s.objects && !Refers(s.versions, o)
  }

  function Orphans(s: State): set<ObjectId> {
    set o | o in s.objects && Orphan(s, o)
  }

  /** Some open copy has inserted a reference to the object. */
  predicate Held(s: State, o: ObjectId) {
    exists c | c in s.copies :: Refers(s.copies[c].held, o)
  }

  /** Some open sweep has locked the object. */
  predicate Locked(s: State, o: ObjectId) {
    exists e | e in s.sweeps :: s.sweeps[e].Claimed? && o in s.sweeps[e].taken
  }

  predicate NewVersion(s: State, v: VersionId) {
    v !in s.versions && forall c | c in s.copies :: v !in s.copies[c].held
  }

  /** What a claim after `seen` was read can still lock. */
  function Free(s: State, seen: set<ObjectId>): set<ObjectId> {
    set o | o in seen && o in s.objects && !Held(s, o) && !Locked(s, o)
  }

  // ---------------------------------------------------------------------------------
  // Steps
  // ---------------------------------------------------------------------------------

  datatype Step =
    | CopyRead(copy: CopyId, wanted: set<ObjectId>)
    | CopyInsert(copy: CopyId, version: VersionId, target: ObjectId)
    | CopyCommit(copy: CopyId)
    | CopyAbort(copy: CopyId)
    | Publish(key: Key, size: nat)
    | UploadCommit(key: Key, target: ObjectId, version: VersionId)
    | UploadUndo(key: Key)
    | UploadCrash(key: Key)
    | Purge(gone: set<VersionId>, event: EventId)
    | SweepRead(event: EventId)
    | SweepClaim(event: EventId, taken: set<ObjectId>, batch: set<ObjectId>, limit: nat)
    | SweepCommit(event: EventId, jobs: Jobs)
    | SweepAbort(event: EventId)
    | EraseBytes(event: EventId)
    | Acknowledge(event: EventId)
    | EraseCrash(event: EventId)

  predicate Claims(free: set<ObjectId>, taken: set<ObjectId>, batch: set<ObjectId>, limit: nat) {
    && 1 <= limit && batch <= taken <= free
    && if |free| <= limit then batch == free else |batch| == limit && |taken| == limit + 1
  }

  /** The claimed objects that are still without a reference when the sweep commits. */
  function Detached(s: State, batch: set<ObjectId>): set<ObjectId> {
    set o | o in batch && Orphan(s, o)
  }

  /**
   Fresh delete events and detached objects, one for one: `of` gives the object of an event, `at`
   the event of an object.
   */
  datatype Jobs = Jobs(of: map<EventId, ObjectId>, at: map<ObjectId, EventId>)

  predicate Asked(jobs: Jobs, o: ObjectId) {
    o in jobs.at && jobs.at[o] in jobs.of && jobs.of[jobs.at[o]] == o
  }

  predicate Answers(jobs: Jobs, e: EventId)
    requires e in jobs.of
  {
    jobs.of[e] in jobs.at && jobs.at[jobs.of[e]] == e
  }

  ghost predicate OneJobEach(pending: map<EventId, Job>, jobs: Jobs, gone: set<ObjectId>) {
    && (forall o {:trigger Asked(jobs, o)} | o in gone :: Asked(jobs, o))
    && (forall e {:trigger e in jobs.of} {:trigger Answers(jobs, e)} | e in jobs.of ::
          e !in pending && jobs.of[e] in gone && Answers(jobs, e))
  }

  function Requests(objects: map<ObjectId, Object>, jobs: Jobs): map<EventId, Job> {
    map e | e in jobs.of && jobs.of[e] in objects :: Delete(objects[jobs.of[e]].key)
  }

  /** Metadata and delete requests change in one transaction; the sweep ends if nothing was left over. */
  function DetachRows(s: State, e: EventId, jobs: Jobs): State
    requires e in s.sweeps && s.sweeps[e].Claimed?
  {
    var gone := Detached(s, s.sweeps[e].batch);
    var kept := if s.sweeps[e].batch == s.sweeps[e].taken then s.pending - {e} else s.pending;
    s.(objects := s.objects - gone, pending := kept + Requests(s.objects, jobs), sweeps := s.sweeps - {e})
  }

  ghost predicate Next(s: State, step: Step, s': State) {
    match step
    case CopyRead(c, wanted) =>
      && c !in s.copies && (forall o | o in wanted :: Refers(s.versions, o))
      && s' == s.(copies := s.copies[c := Copying(wanted, map[])])
    case CopyInsert(c, v, o) =>
      && c in s.copies && o in s.copies[c].wanted && NewVersion(s, v)
      && o in s.objects && !Locked(s, o)
      && s' == s.(copies := s.copies[c := s.copies[c].(held := s.copies[c].held[v := o])])
    case CopyCommit(c) =>
      && c in s.copies
      && s' == s.(versions := s.versions + s.copies[c].held, copies := s.copies - {c})
    case CopyAbort(c) =>
      c in s.copies && s' == s.(copies := s.copies - {c})
    case Publish(k, size) =>
      && k !in s.published
      && s' == s.(disk := s.disk[k := size], uploads := s.uploads[k := size], published := s.published + {k})
    case UploadCommit(k, o, v) =>
      && k in s.uploads && o !in s.objects && NewVersion(s, v)
      && s' == s.(objects := s.objects[o := Object(k, s.uploads[k])], versions := s.versions[v := o],
                  uploads := s.uploads - {k})
    case UploadUndo(k) =>
      k in s.uploads && s' == s.(disk := s.disk - {k}, uploads := s.uploads - {k})
    case UploadCrash(k) =>
      k in s.uploads && s' == s.(uploads := s.uploads - {k}, abandoned := s.abandoned + {k})
    case Purge(gone, e) =>
      && gone <= s.versions.Keys && e !in s.pending
      && s' == s.(versions := s.versions - gone, pending := s.pending[e := Sweep])
    case SweepRead(e) =>
      && e in s.pending && s.pending[e].Sweep? && e !in s.sweeps
      && s' == s.(sweeps := s.sweeps[e := Reading(Orphans(s))])
    case SweepClaim(e, taken, batch, limit) =>
      && e in s.sweeps && s.sweeps[e].Reading? && Claims(Free(s, s.sweeps[e].seen), taken, batch, limit)
      && s' == s.(sweeps := s.sweeps[e := Claimed(taken, batch)])
    case SweepCommit(e, jobs) =>
      && e in s.sweeps && s.sweeps[e].Claimed? && OneJobEach(s.pending, jobs, Detached(s, s.sweeps[e].batch))
      && s' == DetachRows(s, e, jobs)
    case SweepAbort(e) =>
      e in s.sweeps && s' == s.(sweeps := s.sweeps - {e})
    case EraseBytes(e) =>
      && e in s.pending && s.pending[e].Delete? && e !in s.erased
      && s' == s.(disk := s.disk - {s.pending[e].key}, erased := s.erased + {e})
    case Acknowledge(e) =>
      e in s.erased && s' == s.(pending := s.pending - {e}, erased := s.erased - {e})
    case EraseCrash(e) =>
      e in s.erased && s' == s.(erased := s.erased - {e})
  }

  // ---------------------------------------------------------------------------------
  // Safety
  // ---------------------------------------------------------------------------------

  /** Committed and inserted references name existing objects. */
  ghost predicate RefsOk(s: State) {
    && (forall v | v in s.versions :: s.versions[v] in s.objects)
    && (forall c, v | c in s.copies && v in s.copies[c].held :: s.copies[c].held[v] in s.objects)
  }

  /** The bytes of every object are on disk, at their recorded size, under a key of its own. */
  ghost predicate BytesOk(s: State) {
    && (forall o | o in s.objects ::
          var k := s.objects[o].key;
          k in s.disk && s.disk[k] == s.objects[o].size && k in s.published && k !in s.uploads)
    && (forall o, p | o in s.objects && p in s.objects && s.objects[o].key == s.objects[p].key :: o == p)
    && (forall k | k in s.uploads :: k in s.published && k in s.disk && s.disk[k] == s.uploads[k])
  }

  /** The key of a pending delete belongs to no object and to no upload in flight. */
  ghost predicate Unused(s: State, k: Key) {
    k in s.published && k !in s.uploads && forall o | o in s.objects :: s.objects[o].key != k
  }

  ghost predicate JobsOk(s: State) {
    forall e | e in s.pending && s.pending[e].Delete? :: Unused(s, s.pending[e].key)
  }

  /** Transactions in flight lease pending events of their own type. */
  ghost predicate LeaseOk(s: State, e: EventId) {
    && (e in s.sweeps ==> e in s.pending && s.pending[e].Sweep?)
    && (e in s.erased ==> e in s.pending && s.pending[e].Delete? && s.pending[e].key !in s.disk)
  }

  ghost predicate LeasesOk(s: State) {
    forall e {:trigger LeaseOk(s, e)} :: LeaseOk(s, e)
  }

  /** Claimed objects exist, are held by no copy and are claimed once. */
  ghost predicate ClaimOk(s: State, e: EventId, o: ObjectId) {
    && o in s.objects && !Held(s, o)
    && forall f | f in s.sweeps && s.sweeps[f].Claimed? && o in s.sweeps[f].taken :: f == e
  }

  ghost predicate LocksOk(s: State) {
    forall e, o {:trigger ClaimOk(s, e, o)} ::
      e in s.sweeps && s.sweeps[e].Claimed? && o in s.sweeps[e].taken ==> ClaimOk(s, e, o)
  }

  ghost predicate BatchOk(s: State) {
    forall e | e in s.sweeps && s.sweeps[e].Claimed? :: s.sweeps[e].batch <= s.sweeps[e].taken
  }

  /** Version numbers inserted by open copies are committed nowhere and used once. */
  ghost predicate NumberOk(s: State, c: CopyId, v: VersionId) {
    v !in s.versions && forall d | d in s.copies && v in s.copies[d].held :: d == c
  }

  ghost predicate NumbersOk(s: State) {
    forall c, v {:trigger NumberOk(s, c, v)} :: c in s.copies && v in s.copies[c].held ==> NumberOk(s, c, v)
  }

  ghost predicate Safe(s: State) {
    RefsOk(s) && NumbersOk(s) && BytesOk(s) && JobsOk(s) && LeasesOk(s) && LocksOk(s) && BatchOk(s)
  }

  /** A sweep that commits detaches only objects nobody references, committed or not. */
  lemma DetachedUnreferenced(s: State, e: EventId, o: ObjectId)
    requires LocksOk(s) && BatchOk(s) && e in s.sweeps && s.sweeps[e].Claimed? && o in Detached(s, s.sweeps[e].batch)
    ensures o in s.objects && !Refers(s.versions, o) && !Held(s, o)
  {
    assert ClaimOk(s, e, o);
  }

  lemma RefsKept(s: State, step: Step, s': State)
    requires RefsOk(s) && LocksOk(s) && BatchOk(s) && Next(s, step, s')
    ensures RefsOk(s')
  {
    if step.SweepCommit? {
      var e := step.event;
      forall v | v in s'.versions ensures s'.versions[v] in s'.objects {
        if s.versions[v] in Detached(s, s.sweeps[e].batch) {
          DetachedUnreferenced(s, e, s.versions[v]);
        }
      }
      forall c, v | c in s'.copies && v in s'.copies[c].held ensures s'.copies[c].held[v] in s'.objects {
        if s.copies[c].held[v] in Detached(s, s.sweeps[e].batch) {
          DetachedUnreferenced(s, e, s.copies[c].held[v]);
        }
      }
    }
  }

  lemma KeysKept(s: State, step: Step, s': State)
    requires BytesOk(s) && Next(s, step, s')
    ensures forall o, p | o in s'.objects && p in s'.objects && s'.objects[o].key == s'.objects[p].key :: o == p
    ensures forall k | k in s'.uploads :: k in s'.published
  {
    forall o, p | o in s'.objects && p in s'.objects && s'.objects[o].key == s'.objects[p].key ensures o == p {
      if step.UploadCommit? {
        assert o != step.target ==> s'.objects[o].key !in s.uploads;
        assert p != step.target ==> s'.objects[p].key !in s.uploads;
      }
    }
  }

  lemma ObjectBytesKept(s: State, step: Step, s': State, o: ObjectId)
    requires BytesOk(s) && Next(s, step, s') && o in s'.objects
    requires step.EraseBytes? ==> Unused(s, s.pending[step.event].key)
    ensures var k := s'.objects[o].key;
            k in s'.disk && s'.disk[k] == s'.objects[o].size && k in s'.published && k !in s'.uploads
  {
    assert o in s.objects || (step.UploadCommit? && o == step.target);
  }

  lemma BytesKept(s: State, step: Step, s': State)
    requires BytesOk(s) && JobsOk(s) && Next(s, step, s')
    ensures BytesOk(s')
  {
    KeysKept(s, step, s');
    if step.EraseBytes? { assert Unused(s, s.pending[step.event].key); }
    forall o | o in s'.objects
      ensures var k := s'.objects[o].key;
              k in s'.disk && s'.disk[k] == s'.objects[o].size && k in s'.published && k !in s'.uploads
    {
      ObjectBytesKept(s, step, s', o);
    }
    forall k | k in s'.uploads ensures k in s'.disk && s'.disk[k] == s'.uploads[k] {
    }
  }

  /** One pending delete, before and after a step. */
  lemma JobKept(s: State, step: Step, s': State, f: EventId)
    requires BytesOk(s) && Next(s, step, s') && f in s'.pending && s'.pending[f].Delete?
    requires f in s.pending && s.pending[f].Delete? ==> Unused(s, s.pending[f].key)
    ensures Unused(s', s'.pending[f].key)
  {
    match step
    case SweepCommit(e, jobs) =>
      if f in jobs.of {
        var o := jobs.of[f];
        assert o in s.objects && s'.pending[f].key == s.objects[o].key;
        assert o in Detached(s, s.sweeps[e].batch) && o !in s'.objects;
      }
    case _ =>
  }

  lemma JobsKept(s: State, step: Step, s': State)
    requires BytesOk(s) && JobsOk(s) && Next(s, step, s')
    ensures JobsOk(s')
  {
    forall f | f in s'.pending && s'.pending[f].Delete? ensures Unused(s', s'.pending[f].key) {
      JobKept(s, step, s', f);
    }
  }

  lemma SweepLeaseKept(s: State, step: Step, s': State, e: EventId)
    requires LeaseOk(s, e) && (step.Acknowledge? ==> LeaseOk(s, step.event)) && Next(s, step, s') && e in s'.sweeps
    ensures e in s'.pending && s'.pending[e].Sweep?
  {
  }

  lemma EraseLeaseKept(s: State, step: Step, s': State, e: EventId)
    requires LeaseOk(s, e) && (step.SweepCommit? ==> LeaseOk(s, step.event)) && Next(s, step, s') && e in s'.erased
    requires e in s.erased ==> Unused(s, s.pending[e].key)
    ensures e in s'.pending && s'.pending[e].Delete? && s'.pending[e].key !in s'.disk
  {
  }

  lemma LeasesKept(s: State, step: Step, s': State)
    requires JobsOk(s) && LeasesOk(s) && Next(s, step, s')
    ensures LeasesOk(s')
  {
    forall e: EventId ensures LeaseOk(s', e) {
      assert LeaseOk(s, e);
      assert step.Acknowledge? || step.SweepCommit? ==> LeaseOk(s, step.event);
      if e in s'.sweeps { SweepLeaseKept(s, step, s', e); }
      if e in s'.erased { EraseLeaseKept(s, step, s', e); }
    }
  }

  lemma ClaimKept(s: State, step: Step, s': State, e: EventId, o: ObjectId)
    requires Next(s, step, s') && e in s'.sweeps && s'.sweeps[e].Claimed? && o in s'.sweeps[e].taken
    requires LocksOk(s) && BatchOk(s)
    ensures ClaimOk(s', e, o)
  {
    if e in s.sweeps && s.sweeps[e] == s'.sweeps[e] {
      assert ClaimOk(s, e, o);
    }
  }

  lemma LocksKept(s: State, step: Step, s': State)
    requires LocksOk(s) && BatchOk(s) && Next(s, step, s')
    ensures LocksOk(s') && BatchOk(s')
  {
    forall e, o | e in s'.sweeps && s'.sweeps[e].Claimed? && o in s'.sweeps[e].taken ensures ClaimOk(s', e, o) {
      ClaimKept(s, step, s', e, o);
    }
  }

  lemma NumberKept(s: State, step: Step, s': State, c: CopyId, v: VersionId)
    requires Next(s, step, s') && c in s'.copies && v in s'.copies[c].held
    requires c in s.copies && v in s.copies[c].held ==> NumberOk(s, c, v)
    ensures NumberOk(s', c, v)
  {
  }

  lemma NumbersKept(s: State, step: Step, s': State)
    requires NumbersOk(s) && Next(s, step, s')
    ensures NumbersOk(s')
  {
    forall c, v | c in s'.copies && v in s'.copies[c].held ensures NumberOk(s', c, v) {
      assert c in s.copies && v in s.copies[c].held ==> NumberOk(s, c, v);
      NumberKept(s, step, s', c, v);
    }
  }

  lemma NextKeeps(s: State, step: Step, s': State)
    requires Safe(s) && Next(s, step, s')
    ensures Safe(s')
  {
    RefsKept(s, step, s');
    BytesKept(s, step, s');
    JobsKept(s, step, s');
    LeasesKept(s, step, s');
    LocksKept(s, step, s');
    NumbersKept(s, step, s');
  }

  ghost predicate IsRun(states: seq<State>, steps: seq<Step>) {
    && |states| == |steps| + 1
    && forall i | 0 <= i < |steps| :: Next(states[i], steps[i], states[i + 1])
  }

  lemma {:induction false} EveryRunKeeps(states: seq<State>, steps: seq<Step>, i: nat)
    requires IsRun(states, steps) && Safe(states[0]) && i < |states|
    ensures Safe(states[i])
    decreases i
  {
    if i > 0 {
      EveryRunKeeps(states, steps, i - 1);
      NextKeeps(states[i - 1], steps[i - 1], states[i]);
    }
  }

  /**
   Whatever copies, purges, sweeps, deletions, crashes and retries interleave: a committed
   version names an existing object whose bytes are on disk at the recorded size, and no
   pending or retried delete names the key of a live object or of an upload in flight.
   */
  lemma NothingLiveIsLost(states: seq<State>, steps: seq<Step>, i: nat)
    requires IsRun(states, steps) && states[0] == EMPTY && i < |states|
    ensures forall v | v in states[i].versions ::
              && states[i].versions[v] in states[i].objects
              && var o := states[i].objects[states[i].versions[v]];
                 o.key in states[i].disk && states[i].disk[o.key] == o.size
    ensures forall e, o | e in states[i].pending && states[i].pending[e].Delete? && o in states[i].objects ::
              states[i].pending[e].key != states[i].objects[o].key
    ensures forall e | e in states[i].pending && states[i].pending[e].Delete? ::
              states[i].pending[e].key !in states[i].uploads
  {
    EveryRunKeeps(states, steps, i);
    var s := states[i];
    forall e | e in s.pending && s.pending[e].Delete? ensures Unused(s, s.pending[e].key) {
    }
  }

  lemma VersionStep(s: State, step: Step, s': State, v: VersionId)
    requires RefsOk(s) && NumbersOk(s) && LocksOk(s) && BatchOk(s)
    requires Next(s, step, s') && v in s.versions && (step.Purge? ==> v !in step.gone)
    ensures v in s'.versions && s'.versions[v] == s.versions[v]
    ensures s.versions[v] in s.objects && s.versions[v] in s'.objects
    ensures s'.objects[s.versions[v]] == s.objects[s.versions[v]]
  {
    match step
    case CopyCommit(c) => assert v in s.copies[c].held ==> NumberOk(s, c, v);
    case SweepCommit(e, jobs) =>
      if s.versions[v] in Detached(s, s.sweeps[e].batch) { DetachedUnreferenced(s, e, s.versions[v]); }
    case _ =>
  }

  /** A committed version keeps its object, with its bytes, until a purge takes the version. */
  lemma {:induction false} VersionStays(states: seq<State>, steps: seq<Step>, i: nat, j: nat, v: VersionId)
    requires IsRun(states, steps) && Safe(states[0]) && i <= j < |states| && v in states[i].versions
    requires forall k | i <= k < j && steps[k].Purge? :: v !in steps[k].gone
    ensures v in states[j].versions && states[j].versions[v] == states[i].versions[v]
    ensures states[i].versions[v] in states[i].objects && states[i].versions[v] in states[j].objects
    ensures states[j].objects[states[j].versions[v]] == states[i].objects[states[i].versions[v]]
    decreases j
  {
    EveryRunKeeps(states, steps, i);
    if i < j {
      VersionStays(states, steps, i, j - 1, v);
      EveryRunKeeps(states, steps, j - 1);
      VersionStep(states[j - 1], steps[j - 1], states[j], v);
    }
  }

  // ---------------------------------------------------------------------------------
  // Nothing is forgotten
  // ---------------------------------------------------------------------------------

  /** Someone still answers for the bytes under a key. */
  ghost predicate Owned(s: State, k: Key) {
    || k in s.uploads || k in s.abandoned
    || (exists o | o in s.objects :: s.objects[o].key == k)
    || exists e | e in s.pending :: s.pending[e] == Delete(k)
  }

  ghost predicate Accounted(s: State) {
    forall k | k in s.disk :: Owned(s, k)
  }

  /** A pending sweep will see to the object: it has not started, or has it in hand, or will run again. */
  ghost predicate Carries(s: State, e: EventId, o: ObjectId) {
    && e in s.pending && s.pending[e].Sweep?
    && (e in s.sweeps ==>
          match s.sweeps[e]
          case Reading(seen) => o in seen
          case Claimed(taken, batch) => o in batch || batch != taken)
  }

  ghost predicate Carried(s: State, o: ObjectId) {
    exists e :: Carries(s, e, o)
  }

  /** Every unreferenced object is held by an open copy or carried by a pending sweep. */
  ghost predicate Covered(s: State) {
    forall o | Orphan(s, o) :: Held(s, o) || Carried(s, o)
  }

  /** The copy holds an unreferenced object that no other copy holds and no pending sweep carries. */
  ghost predicate LastHolder(s: State, c: CopyId, o: ObjectId) {
    && c in s.copies && Refers(s.copies[c].held, o)
    && Orphan(s, o) && !Carried(s, o)
    && forall d | d in s.copies && d != c :: !Refers(s.copies[d].held, o)
  }

  /** The copy that gives up is the last hold on an unreferenced object that every sweep has passed over. */
  ghost predicate Strands(s: State, step: Step) {
    step.CopyAbort? && exists o :: LastHolder(s, step.copy, o)
  }

  lemma ObjectStaysOwner(s: State, step: Step, s': State, o: ObjectId)
    requires Next(s, step, s') && o in s.objects
    ensures Owned(s', s.objects[o].key)
  {
    var k := s.objects[o].key;
    if o in s'.objects {
      assert s'.objects[o].key == k;
    } else {
      assert Asked(step.jobs, o);
      var e := step.jobs.at[o];
      assert e in s'.pending && s'.pending[e] == Delete(k);
    }
  }

  lemma JobStaysOwner(s: State, step: Step, s': State, e: EventId)
    requires LeasesOk(s) && Next(s, step, s') && e in s.pending && s.pending[e].Delete? && s.pending[e].key in s'.disk
    ensures Owned(s', s.pending[e].key)
  {
    assert LeaseOk(s, e);
    assert step.Acknowledge? || step.SweepCommit? ==> LeaseOk(s, step.event);
    assert e in s'.pending && s'.pending[e] == s.pending[e];
  }

  /** Bytes keep an owner in every step. */
  lemma OwnedKept(s: State, step: Step, s': State, k: Key)
    requires LeasesOk(s) && Next(s, step, s') && k in s'.disk
    requires k in s.disk ==> Owned(s, k)
    ensures Owned(s', k)
  {
    if k !in s.disk || k in s.uploads || k in s.abandoned {
      if step.UploadCommit? && step.key == k {
        assert s'.objects[step.target].key == k;
      }
    } else if o :| o in s.objects && s.objects[o].key == k {
      ObjectStaysOwner(s, step, s', o);
    } else {
      var e :| e in s.pending && s.pending[e] == Delete(k);
      JobStaysOwner(s, step, s', e);
    }
  }

  /** An orphan that a claim did not lock is locked by another sweep or held by a copy. */
  lemma ClaimCovers(s: State, step: Step, s': State, o: ObjectId)
    requires LeasesOk(s) && BatchOk(s) && Next(s, step, s') && step.SweepClaim?
    requires Orphan(s, o) && (Held(s, o) || Carried(s, o))
    ensures Held(s', o) || Carried(s', o)
  {
    if !Held(s, o) {
      var e :| Carries(s, e, o);
      if e != step.event {
        assert Carries(s', e, o);
      } else if Locked(s, o) {
        var f :| f in s.sweeps && s.sweeps[f].Claimed? && o in s.sweeps[f].taken;
        assert LeaseOk(s, f);
        assert Carries(s', f, o);
      } else {
        assert o in Free(s, s.sweeps[e].seen);
        assert Carries(s', e, o);
      }
    }
  }

  lemma CommitCovers(s: State, step: Step, s': State, o: ObjectId, e: EventId)
    requires Next(s, step, s') && step.SweepCommit? && Orphan(s', o) && Carries(s, e, o)
    ensures Carries(s', e, o)
  {
    if e == step.event {
      assert o in Detached(s, s.sweeps[e].batch) <==> o in s.sweeps[e].batch;
    }
  }

  lemma PurgeCovers(s: State, step: Step, s': State, o: ObjectId)
    requires LeasesOk(s) && Next(s, step, s') && step.Purge?
    ensures Carried(s', o)
  {
    assert LeaseOk(s, step.event);
    assert Carries(s', step.event, o);
  }

  /** An open copy's hold on an object ends only with that copy. */
  lemma HoldStays(s: State, step: Step, s': State, o: ObjectId, c: CopyId)
    requires Next(s, step, s') && c in s.copies && Refers(s.copies[c].held, o)
    requires step.CopyAbort? || step.CopyCommit? ==> step.copy != c
    requires step.CopyInsert? && step.copy == c ==> NewVersion(s, step.version)
    ensures Held(s', o)
  {
    var v :| v in s.copies[c].held && s.copies[c].held[v] == o;
    assert s'.copies[c].held[v] == o;
  }

  lemma CommitRefers(s: State, step: Step, s': State, o: ObjectId)
    requires Next(s, step, s') && step.CopyCommit? && Refers(s.copies[step.copy].held, o)
    ensures Refers(s'.versions, o)
  {
    var v :| v in s.copies[step.copy].held && s.copies[step.copy].held[v] == o;
    assert s'.versions[v] == o;
  }

  lemma CarryStays(s: State, step: Step, s': State, o: ObjectId, e: EventId)
    requires LeasesOk(s) && Next(s, step, s') && Orphan(s, o) && Orphan(s', o) && Carries(s, e, o)
    requires !step.SweepClaim? && !step.SweepCommit?
    ensures Carries(s', e, o)
  {
    assert step.Acknowledge? ==> LeaseOk(s, step.event);
  }

  lemma ReferenceStays(s: State, step: Step, s': State, v: VersionId)
    requires NumbersOk(s) && Next(s, step, s') && !step.Purge? && v in s.versions
    ensures v in s'.versions && s'.versions[v] == s.versions[v]
  {
    assert step.CopyCommit? && v in s.copies[step.copy].held ==> NumberOk(s, step.copy, v);
  }

  lemma NewObjectReferred(s: State, step: Step, s': State)
    requires Next(s, step, s') && step.UploadCommit?
    ensures Refers(s'.versions, step.target)
  {
    assert s'.versions[step.version] == step.target;
  }

  lemma OnlyPurgesOrphan(s: State, step: Step, s': State, o: ObjectId)
    requires NumbersOk(s) && Next(s, step, s') && Orphan(s', o) && !Orphan(s, o)
    ensures step.Purge?
  {
    if o !in s.objects {
      NewObjectReferred(s, step, s');
    } else if !step.Purge? {
      var v :| v in s.versions && s.versions[v] == o;
      ReferenceStays(s, step, s', v);
    }
  }

  lemma OrphanStaysCovered(s: State, step: Step, s': State, o: ObjectId)
    requires LeasesOk(s) && BatchOk(s) && NumbersOk(s) && Next(s, step, s') && Orphan(s', o)
    requires Orphan(s, o) ==> Held(s, o) || Carried(s, o)
    requires step.CopyAbort? ==> !LastHolder(s, step.copy, o)
    ensures Held(s', o) || Carried(s', o)
  {
    if !Orphan(s, o) {
      OnlyPurgesOrphan(s, step, s', o);
      PurgeCovers(s, step, s', o);
    } else if step.SweepClaim? {
      ClaimCovers(s, step, s', o);
    } else if e :| Carries(s, e, o) {
      if step.SweepCommit? { CommitCovers(s, step, s', o, e); } else { CarryStays(s, step, s', o, e); }
    } else {
      var c :| c in s.copies && Refers(s.copies[c].held, o);
      if step.CopyCommit? && step.copy == c {
        CommitRefers(s, step, s', o);
      } else if step.CopyAbort? && step.copy == c {
        var d :| d in s.copies && d != c && Refers(s.copies[d].held, o);
        HoldStays(s, step, s', o, d);
      } else {
        HoldStays(s, step, s', o, c);
      }
    }
  }

  lemma AbortUncovers(s: State, c: CopyId, s': State, o: ObjectId)
    requires Next(s, CopyAbort(c), s') && LastHolder(s, c, o)
    ensures Orphan(s', o) && !Held(s', o) && !Carried(s', o)
  {
    if e :| Carries(s', e, o) {
      assert Carries(s, e, o);
    }
  }

  /**
   With any number of workers, copies, uploads and crashes, a step loses track of an
   unreferenced object exactly when it aborts a copy that was the last to hold it after
   every sweep had passed it over.
   */
  lemma CoverageIff(s: State, step: Step, s': State)
    requires Safe(s) && Covered(s) && Next(s, step, s')
    ensures Covered(s') <==> !Strands(s, step)
  {
    if step.CopyAbort? && exists o :: LastHolder(s, step.copy, o) {
      var o :| LastHolder(s, step.copy, o);
      AbortUncovers(s, step.copy, s', o);
    } else {
      forall o | Orphan(s', o) ensures Held(s', o) || Carried(s', o) {
        OrphanStaysCovered(s, step, s', o);
      }
    }
  }

  lemma AccountedKept(s: State, step: Step, s': State)
    requires LeasesOk(s) && Accounted(s) && Next(s, step, s')
    ensures Accounted(s')
  {
    forall k | k in s'.disk ensures Owned(s', k) {
      OwnedKept(s, step, s', k);
    }
  }

  lemma {:induction false} EveryRunCovers(states: seq<State>, steps: seq<Step>, i: nat)
    requires IsRun(states, steps) && states[0] == EMPTY && i < |states|
    requires forall k | 0 <= k < i :: !Strands(states[k], steps[k])
    ensures Covered(states[i]) && Accounted(states[i])
    decreases i
  {
    if i > 0 {
      EveryRunCovers(states, steps, i - 1);
      EveryRunKeeps(states, steps, i - 1);
      CoverageIff(states[i - 1], steps[i - 1], states[i]);
      AccountedKept(states[i - 1], steps[i - 1], states[i]);
    }
  }

  /**
   Once no event is pending and nothing is in flight, no unreferenced object is left and
   the disk holds exactly the bytes of the referenced objects, apart from what an upload
   left behind that died between publication and commit.
   */
  lemma DrainedIsClean(states: seq<State>, steps: seq<Step>, i: nat)
    requires IsRun(states, steps) && states[0] == EMPTY && i < |states|
    requires forall k | 0 <= k < i :: !Strands(states[k], steps[k])
    requires states[i].pending == map[] && states[i].copies == map[] && states[i].uploads == map[]
    ensures Orphans(states[i]) == {}
    ensures forall k | k in states[i].disk && k !in states[i].abandoned ::
              exists o | o in states[i].objects :: states[i].objects[o].key == k && Refers(states[i].versions, o)
    ensures forall o | o in states[i].objects :: states[i].objects[o].key in states[i].disk
  {
    EveryRunCovers(states, steps, i);
    EveryRunKeeps(states, steps, i);
    var s := states[i];
    forall o | o in s.objects ensures Refers(s.versions, o) {
      assert !Held(s, o) && !Carried(s, o);
    }
    forall k | k in s.disk && k !in s.abandoned
      ensures exists o | o in s.objects :: s.objects[o].key == k && Refers(s.versions, o)
    {
      assert Owned(s, k);
      var o :| o in s.objects && s.objects[o].key == k;
      assert Refers(s.versions, o);
    }
  }

  /** There is a run from one state to the other. */
  ghost predicate Leads(s: State, s': State) {
    exists states: seq<State>, steps: seq<Step> :: IsRun(states, steps) && states[0] == s && states[|states| - 1] == s'
  }

  lemma OneStep(s: State, step: Step, s': State)
    requires Next(s, step, s')
    ensures Leads(s, s')
  {
    assert IsRun([s, s'], [step]);
  }

  lemma Joined(s: State, t: State, u: State)
    requires Leads(s, t) && Leads(t, u)
    ensures Leads(s, u)
  {
    var states: seq<State>, steps: seq<Step> :| IsRun(states, steps) && states[0] == s && states[|states| - 1] == t;
    var more: seq<State>, further: seq<Step> :| IsRun(more, further) && more[0] == t && more[|more| - 1] == u;
    var all, moves := states + more[1..], steps + further;
    forall i | 0 <= i < |moves| ensures Next(all[i], moves[i], all[i + 1]) {
      if i >= |steps| {
        assert Next(more[i - |steps|], further[i - |steps|], more[i - |steps| + 1]);
      }
    }
    assert IsRun(all, moves);
  }

  lemma {:induction false} RunAccounts(states: seq<State>, steps: seq<Step>, i: nat)
    requires IsRun(states, steps) && Safe(states[0]) && Accounted(states[0]) && i < |states|
    ensures Accounted(states[i])
    decreases i
  {
    if i > 0 {
      RunAccounts(states, steps, i - 1);
      EveryRunKeeps(states, steps, i - 1);
      AccountedKept(states[i - 1], steps[i - 1], states[i]);
    }
  }

  lemma LeadsAccounts(s: State, s': State)
    requires Leads(s, s') && Safe(s) && Accounted(s)
    ensures Accounted(s')
  {
    var states: seq<State>, steps: seq<Step> :| IsRun(states, steps) && states[0] == s && states[|states| - 1] == s';
    RunAccounts(states, steps, |states| - 1);
  }

  const NO_JOBS := Jobs(map[], map[])
}
