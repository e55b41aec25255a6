/**
 Which steps of the object collection add, change or remove what: for each table and for the
 bytes on disk, every cause and no other.
 */
module CollectionEffects {
  import opened ObjectGc

  /** Versions come with a committed copy or upload, and go with a purge that names them. */
  lemma VersionsChange(s: State, step: Step, s': State)
    requires NumbersOk(s) && Next(s, step, s')
    ensures forall v :: v in s'.versions <==>
              || (v in s.versions && !(step.Purge? && v in step.gone))
              || (step.CopyCommit? && v in s.copies[step.copy].held)
              || (step.UploadCommit? && v == step.version)
    ensures forall v | v in s'.versions ::
              s'.versions[v] == if v in s.versions then s.versions[v]
                                else if step.CopyCommit? then s.copies[step.copy].held[v] else step.target
  {
    if step.CopyCommit? {
      forall v | v in s.copies[step.copy].held ensures v !in s.versions {
        assert NumberOk(s, step.copy, v);
      }
    }
  }

  /** What a committing sweep removes: the rows it has claimed for its batch that no version names. */
  predicate Collected(s: State, step: Step, o: ObjectId) {
    && step.SweepCommit? && step.event in s.sweeps && s.sweeps[step.event].Claimed?
    && o in s.sweeps[step.event].batch && o in s.objects && forall v | v in s.versions :: s.versions[v] != o
  }

  /** Object rows come with an upload, with the size that was published, and go with a sweep; none is ever altered. */
  lemma ObjectsChange(s: State, step: Step, s': State)
    requires Next(s, step, s')
    ensures forall o :: o in s'.objects <==>
              (o in s.objects && !Collected(s, step, o)) || (step.UploadCommit? && o == step.target)
    ensures forall o | o in s'.objects ::
              s'.objects[o] == if o in s.objects then s.objects[o] else Object(step.key, s.uploads[step.key])
  {
    if step.SweepCommit? {
      var batch := s.sweeps[step.event].batch;
      forall o | o in s.objects ensures o in Detached(s, batch) <==> Collected(s, step, o) {
      }
    }
  }

  /** Bytes come with a publication, and go with its undoing or with the delete event of their key. */
  lemma BytesChange(s: State, step: Step, s': State)
    requires Next(s, step, s')
    ensures forall k :: k in s'.disk <==>
              || (k in s.disk && !(step.UploadUndo? && k == step.key)
                  && !(step.EraseBytes? && s.pending[step.event] == Delete(k)))
              || (step.Publish? && k == step.key)
    ensures forall k | k in s'.disk ::
              s'.disk[k] == if step.Publish? && k == step.key then step.size else s.disk[k]
  {
  }

  /**
   Events stay until they are acknowledged: a sweep by the commit that left nothing over, a delete
   after its bytes.
   */
  lemma EventsStay(s: State, step: Step, s': State, e: EventId)
    requires LeasesOk(s) && Next(s, step, s') && e in s.pending
    ensures e in s'.pending <==>
            && !(step.Acknowledge? && e == step.event)
            && !(step.SweepCommit? && e == step.event && s.sweeps[e].batch == s.sweeps[e].taken)
    ensures e in s'.pending ==> s'.pending[e] == s.pending[e]
    ensures e !in s'.pending && s.pending[e].Delete? ==> s.pending[e].key !in s'.disk
  {
    assert LeaseOk(s, e);
    assert step.Acknowledge? || step.SweepCommit? ==> LeaseOk(s, step.event);
  }

  /** A new event is the sweep of a purge, or the delete request of one collected object. */
  lemma NewEvent(s: State, step: Step, s': State, e: EventId)
    requires Next(s, step, s') && e in s'.pending && e !in s.pending
    ensures (step.Purge? && e == step.event && s'.pending[e] == Sweep)
            || exists o | o in s.objects :: Collected(s, step, o) && s'.pending[e] == Delete(s.objects[o].key)
  {
    if step.SweepCommit? {
      var o := step.jobs.of[e];
      assert o in Detached(s, s.sweeps[step.event].batch);
      assert Collected(s, step, o);
    }
  }

  /** Each collected object has its bytes asked for, by exactly one new event. */
  lemma CollectedIsRequested(s: State, step: Step, s': State, o: ObjectId) returns (e: EventId)
    requires BytesOk(s) && Next(s, step, s') && Collected(s, step, o)
    ensures e !in s.pending && e in s'.pending && s'.pending[e] == Delete(s.objects[o].key)
    ensures forall f | f in s'.pending && f !in s.pending && s'.pending[f] == Delete(s.objects[o].key) :: f == e
  {
    assert o in Detached(s, s.sweeps[step.event].batch);
    assert Asked(step.jobs, o);
    e := step.jobs.at[o];
    forall f | f in s'.pending && f !in s.pending && s'.pending[f] == Delete(s.objects[o].key) ensures f == e {
      assert f in step.jobs.of && Answers(step.jobs, f);
      assert step.jobs.of[f] == o;
    }
  }

  /** A purge schedules a sweep in the same step that takes the versions. */
  lemma PurgeSchedules(s: State, step: Step, s': State)
    requires Next(s, step, s') && step.Purge?
    ensures step.event !in s.pending && s'.pending == s.pending[step.event := Sweep]
    ensures forall v | v in step.gone :: v in s.versions && v !in s'.versions
    ensures s'.objects == s.objects && s'.disk == s.disk
  {
  }
}
