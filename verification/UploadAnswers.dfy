/**
 What an upload session answers to each request, when exactly, and what the request then
 changes; and what refusal, expiry and cancellation mean over whole runs.
 */
module UploadAnswers {
  import opened Outcomes
  import opened Bytes
  import opened UploadProtocol

  /** Neither the session's rows nor its stored bytes differ, and it expects as much as before. */
  predicate SameOutcome(s: Server, s': Server) {
    && s'.expected == s.expected && s'.stored == s.stored
    && s'.row == s.row && s'.publishes == s.publishes && s'.files == s.files
  }

  /**
   An accepted append has written the first `n` bytes of the body behind the acknowledged ones,
   and acknowledges just these. Any other answer acknowledges nothing.
   */
  lemma AppendAnswers(s: Server, q: Request, expired: bool, s': Server, reply: Reply) returns (n: nat)
    requires AppendNext(s, q, expired, s', reply)
    ensures reply == Refused <==> expired || s.status.Completed? || s.status.Cancelled?
    ensures reply.Mismatch? <==>
            !expired && (s.status.Created? || s.status.Uploading?) && q.offset != s.uploaded
    ensures reply.Mismatch? ==> reply.expected == s.uploaded
    ensures reply == Refused || reply.Mismatch? || s.staging.None? ==> s' == s
    ensures reply.Accepted? ==>
              && s.staging.Some? && |s.staging.value| == s.uploaded == q.offset
              && 1 <= n <= |q.body| && s.uploaded + n <= s.expected
              && s'.staging == Some(s.staging.value + q.body[..n])
              && s'.uploaded == s.uploaded + n == reply.offset && s'.status == Uploading
    ensures !reply.Accepted? ==> s'.uploaded == s.uploaded && s'.status == s.status
    ensures SameOutcome(s, s')
  {
    n := 0;
    if !expired && (s.status.Created? || s.status.Uploading?) && q.offset == s.uploaded
       && s.staging.Some? && |s.staging.value| == q.offset {
      var bytes: Blob :| Delivered(s, q.body, bytes) &&
        if reply == Failed then s' == WithTail(s, bytes)
        else bytes != [] && reply == Accepted(s.uploaded + |bytes|)
             && s' == WithTail(s, bytes).(uploaded := s.uploaded + |bytes|, status := Uploading);
      n := |bytes|;
      assert bytes == q.body[..n];
    }
  }

  /** A staged file is published by a completion exactly in this situation. */
  predicate Publishable(s: Server, expired: bool, accepted: bool) {
    && !expired && (s.status.Created? || s.status.Uploading?) && s.uploaded == s.expected
    && s.staging.Some? && |s.staging.value| == s.expected
    && accepted && s.stored.None?
  }

  /**
   A completion succeeds exactly when the session is open, fully acknowledged and staged in full,
   the file passes its checks, nothing is stored yet, and the commit takes effect. Short of
   publication nothing changes.
   */
  lemma CompleteAnswers(s: Server, expired: bool, accepted: bool, ending: Ending, s': Server, reply: Reply)
    requires CompleteNext(s, expired, accepted, ending, s', reply)
    ensures reply.Accepted? <==>
            !expired && (s.status.Created? || s.status.Uploading?) && s.uploaded == s.expected
            && s.staging.Some? && |s.staging.value| == s.expected && accepted && s.stored.None? && ending.Committed?
    ensures reply == Refused <==>
            expired || s.status.Completed? || s.status.Cancelled? || s.uploaded != s.expected
    ensures reply.Accepted? || reply == Refused || reply == Failed
    ensures !accepted ==> s' == s
    ensures if Publishable(s, expired, accepted) then s'.publishes == s.publishes + 1 && s'.staging.None? else s' == s
    ensures reply.Accepted? ==>
              && reply.offset == s.expected && s'.stored == s.staging
              && s'.row.Live? && s'.files == s.files + 1 && s'.status == Completed
    ensures !reply.Accepted? ==> s'.row == s.row && s'.files == s.files && s'.status == s.status
    ensures !reply.Accepted? && !ending.Crashed? ==> s'.stored == s.stored
    ensures s'.uploaded == s.uploaded && s'.expected == s.expected
  {
  }

  /** Only a completed session cannot be cancelled; a cancelled one keeps everything but its staging file. */
  lemma CancelAnswers(s: Server, discarded: bool, s': Server, reply: Reply)
    requires CancelNext(s, discarded, s', reply)
    ensures reply == Refused <==> s.status.Completed?
    ensures s.status.Completed? ==> s' == s
    ensures !s.status.Completed? ==>
              && s'.status == Cancelled && s'.uploaded == s.uploaded
              && s'.staging == (if discarded then None else s.staging)
    ensures SameOutcome(s, s')
  {
  }

  // ---------------------------------------------------------------------------------
  // Over runs
  // ---------------------------------------------------------------------------------

  lemma UnpublishedStep(w: World, e: Event, w': World)
    requires ServerOk(w.server, w.file) && Next(w, e, w') && w.server.publishes == 0
    requires e.ServerCompletes? ==> !e.accepted || e.expired
    ensures w'.server.publishes == 0
  {
    if e.ServerAppends? {
      var n := AppendAnswers(w.server, e.request, e.expired, w'.server, e.reply);
    }
  }

  /** As long as the checks refuse the file, or the session has expired, nothing of it is ever stored or listed. */
  lemma {:induction false} RefusedFileStaysOut(worlds: seq<World>, events: seq<Event>, i: nat)
    requires IsRun(worlds, events) && i < |worlds|
    requires forall k | 0 <= k < i && events[k].ServerCompletes? :: !events[k].accepted || events[k].expired
    ensures var s := worlds[i].server;
            s.publishes == 0 && s.files == 0 && s.stored.None? && s.row.NoRow?
    ensures !worlds[i].client.Done?
    decreases i
  {
    EveryRunKeeps(worlds, events, i);
    if i > 0 {
      RefusedFileStaysOut(worlds, events, i - 1);
      EveryRunKeeps(worlds, events, i - 1);
      UnpublishedStep(worlds[i - 1], events[i - 1], worlds[i]);
    }
  }

  lemma CancelledStep(w: World, e: Event, w': World)
    requires ServerOk(w.server, w.file) && Next(w, e, w') && w.server.status.Cancelled?
    ensures w'.server.status.Cancelled? && w'.server.uploaded == w.server.uploaded && SameOutcome(w.server, w'.server)
    ensures e.ServerAppends? || e.ServerCompletes? ==> e.reply == Refused && w'.server == w.server
  {
    if e.ServerAppends? {
      var n := AppendAnswers(w.server, e.request, e.expired, w'.server, e.reply);
    }
  }

  lemma {:induction false} CancelledStays(worlds: seq<World>, events: seq<Event>, i: nat, j: nat)
    requires IsRun(worlds, events) && i <= j < |worlds| && worlds[i].server.status.Cancelled?
    ensures worlds[j].server.status.Cancelled? && worlds[j].server.uploaded == worlds[i].server.uploaded
    ensures SameOutcome(worlds[i].server, worlds[j].server)
    decreases j
  {
    if i < j {
      CancelledStays(worlds, events, i, j - 1);
      CancelledRunStep(worlds, events, j - 1);
    }
  }

  lemma CancelledRunStep(worlds: seq<World>, events: seq<Event>, k: nat)
    requires IsRun(worlds, events) && k < |events| && worlds[k].server.status.Cancelled?
    ensures var s, s' := worlds[k].server, worlds[k + 1].server;
            s'.status.Cancelled? && s'.uploaded == s.uploaded && SameOutcome(s, s')
    ensures events[k].ServerAppends? || events[k].ServerCompletes? ==> events[k].reply == Refused
  {
    EveryRunKeeps(worlds, events, k);
    CancelledStep(worlds[k], events[k], worlds[k + 1]);
  }

  /** A cancelled session stays so: it refuses every append and completion, and commits nothing. */
  lemma CancelledForever(worlds: seq<World>, events: seq<Event>, i: nat, j: nat)
    requires IsRun(worlds, events) && i <= j < |events| && worlds[i].server.status.Cancelled?
    ensures events[j].ServerAppends? || events[j].ServerCompletes? ==> events[j].reply == Refused
    ensures worlds[j + 1].server.status.Cancelled? && worlds[j + 1].server.uploaded == worlds[i].server.uploaded
    ensures SameOutcome(worlds[i].server, worlds[j + 1].server)
  {
    CancelledStays(worlds, events, i, j);
    CancelledRunStep(worlds, events, j);
  }
}
