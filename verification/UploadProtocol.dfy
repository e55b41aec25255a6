/**
 The resumable upload as a protocol between one client, a network that may lose, delay,
 repeat or cut requests, and one upload session on the server with its staging file, its
 final object and its committed rows.

 One request on the session, with its compensation, ends before the next begins, and a
 commit that reports failure has not taken effect.
 */
module UploadProtocol {
  import opened Outcomes
  import opened Bytes
  import opened LocalStorage

  datatype Status = Created | Uploading | Completed | Cancelled

  /** The rows of a finished upload: a storage object and a file whose only version names it. */
  datatype Row = NoRow | Live | Detached

  /**
   `expired` is whether the session lifetime has passed. `stored` is what the object key
   holds; `publishes` and `files` count how often the key received bytes and rows were
   committed.
   */
  datatype Server = Server(
    expected: nat, uploaded: nat, status: Status,
    staging: Option<Blob>, stored: Option<Blob>, row: Row, publishes: nat, files: nat)

  datatype Reply = Accepted(offset: nat) | Mismatch(expected: nat) | Refused | Failed

  datatype Request = Request(offset: nat, body: Blob)

  predicate Writable(s: Server, expired: bool) {
    !expired && (s.status.Created? || s.status.Uploading?)
  }

  function WithTail(s: Server, bytes: Blob): Server
    requires s.staging.Some?
  {
    s.(staging := Some(s.staging.value + bytes))
  }

  /** The bytes of a body that the bounded stream lets through never exceed what is still expected. */
  ghost predicate Delivered(s: Server, body: Blob, bytes: Blob) {
    bytes <= body && s.uploaded + |bytes| <= s.expected
  }

  /**
   What an append may do. A staging file of another size than acknowledged is cut back and
   the request fails; otherwise a nonempty delivered part is acknowledged, or the request
   fails and may leave some delivered bytes behind.
   */
  ghost predicate AppendNext(s: Server, q: Request, expired: bool, s': Server, reply: Reply) {
    if !Writable(s, expired) then s' == s && reply == Refused
    else if q.offset != s.uploaded then s' == s && reply == Mismatch(s.uploaded)
    else if s.staging.None? then s' == s && reply == Failed
    else if |s.staging.value| != q.offset then
      (s' == s || s' == s.(staging := Some(Truncated(s.staging.value, q.offset)))) && reply == Failed
    else
      exists bytes: Blob :: Delivered(s, q.body, bytes) &&
        if reply == Failed then s' == WithTail(s, bytes)
        else bytes != [] && reply == Accepted(s.uploaded + |bytes|)
             && s' == WithTail(s, bytes).(uploaded := s.uploaded + |bytes|, status := Uploading)
  }

  lemma AppendMayFail(s: Server, q: Request, expired: bool, bytes: Blob)
    requires Writable(s, expired) && s.staging.Some? && |s.staging.value| == q.offset == s.uploaded
    requires Delivered(s, q.body, bytes)
    ensures AppendNext(s, q, expired, WithTail(s, bytes), Failed)
  {
  }

  lemma AppendMayAccept(s: Server, q: Request, expired: bool, bytes: Blob)
    requires Writable(s, expired) && s.staging.Some? && |s.staging.value| == q.offset == s.uploaded
    requires Delivered(s, q.body, bytes) && bytes != []
    ensures AppendNext(s, q, expired, WithTail(s, bytes).(uploaded := s.uploaded + |bytes|, status := Uploading),
                       Accepted(s.uploaded + |bytes|))
  {
  }

  /** How a completion that reached publication ends. */
  datatype Ending = Committed | Compensated | Crashed

  /** `accepted` stands for the MIME, scanner, parent and name checks. */
  ghost predicate CompleteNext(s: Server, expired: bool, accepted: bool, ending: Ending, s': Server, reply: Reply) {
    if !Writable(s, expired) || s.uploaded != s.expected then s' == s && reply == Refused
    else if s.staging.None? || |s.staging.value| != s.expected || !accepted || s.stored.Some? then
      s' == s && reply == Failed
    else
      var published := s.(staging := None, stored := s.staging, publishes := s.publishes + 1);
      match ending
      case Committed =>
        s' == published.(row := Live, files := s.files + 1, status := Completed) && reply == Accepted(s.expected)
      case Compensated => s' == published.(stored := None) && reply == Failed
      case Crashed => s' == published && reply == Failed
  }

  /** Cancelling commits first and discards the staging file afterwards, if it gets that far. */
  ghost predicate CancelNext(s: Server, discarded: bool, s': Server, reply: Reply) {
    if s.status.Completed? then s' == s && reply == Refused
    else
      && s' == s.(status := Cancelled, staging := if discarded then None else s.staging)
      && reply == Accepted(s.uploaded)
  }

  // ---------------------------------------------------------------------------------
  // The whole system
  // ---------------------------------------------------------------------------------

  datatype Client =
    | Pending
    | Running(offset: nat)
    | Waiting(request: Request)
    | Resyncing
    | Finishing
    | Done
    | Stopped

  /**
   Everything ever sent may still arrive, any number of times; everything ever answered may
   still be read by the client that waits for it; `seen` are the offsets a status request
   may have reported so far.
   */
  datatype World = World(
    file: Blob, server: Server, client: Client,
    sent: set<Request>, answers: set<(Request, Reply)>, seen: set<nat>,
    completeAsked: bool, completeAnswered: bool)

  const CHUNK: nat := 4 * 1024 * 1024

  function ChunkAt(file: Blob, offset: nat): Blob
    requires offset <= |file|
  {
    if offset + CHUNK <= |file| then file[offset..offset + CHUNK] else file[offset..]
  }

  datatype Event =
    | StartAnswered
    | SendChunk
    | ServerAppends(request: Request, expired: bool, reply: Reply)
    | ClientReads(reply: Reply)
    | ClientResyncs(offset: nat)
    | ClientStops
    | Retry(offset: nat)
    | AskComplete
    | ServerCompletes(expired: bool, accepted: bool, ending: Ending, reply: Reply)
    | ClientReadsCompletion
    | ServerCancels(discarded: bool)
    | DetachRow
    | DeleteBytes

  ghost predicate Start(w: World) {
    && w.server == Server(|w.file|, 0, Created, Some([]), None, NoRow, 0, 0)
    && w.client == Pending
    && w.sent == {} && w.answers == {} && w.seen == {0}
    && !w.completeAsked && !w.completeAnswered
  }

  ghost predicate Next(w: World, e: Event, w': World) {
    match e
    case StartAnswered =>
      w.client == Pending && w' == w.(client := Running(0))
    case SendChunk =>
      && w.client.Running? && w.client.offset < |w.file|
      && var q := Request(w.client.offset, ChunkAt(w.file, w.client.offset));
      w' == w.(client := Waiting(q), sent := w.sent + {q})
    case ServerAppends(q, expired, reply) =>
      && q in w.sent
      && AppendNext(w.server, q, expired, w'.server, reply)
      && w' == w.(server := w'.server, answers := w.answers + {(q, reply)}, seen := w.seen + {w'.server.uploaded})
    case ClientReads(reply) =>
      && w.client.Waiting? && (w.client.request, reply) in w.answers
      && w' == w.(client := if reply.Accepted? then Running(reply.offset)
                            else if reply.Mismatch? then Resyncing else Stopped)
    case ClientResyncs(offset) =>
      w.client == Resyncing && offset in w.seen && w' == w.(client := Running(offset))
    case ClientStops =>
      !w.client.Done? && w' == w.(client := Stopped)
    case Retry(offset) =>
      w.client == Stopped && offset in w.seen && w' == w.(client := Running(offset))
    case AskComplete =>
      w.client.Running? && w.client.offset >= |w.file| && w' == w.(client := Finishing, completeAsked := true)
    case ServerCompletes(expired, accepted, ending, reply) =>
      && w.completeAsked
      && CompleteNext(w.server, expired, accepted, ending, w'.server, reply)
      && w' == w.(server := w'.server, completeAnswered := w.completeAnswered || reply.Accepted?)
    case ClientReadsCompletion =>
      w.client == Finishing && w.completeAnswered && w' == w.(client := Done)
    case ServerCancels(discarded) =>
      exists reply :: CancelNext(w.server, discarded, w'.server, reply) && w' == w.(server := w'.server)
    case DetachRow =>
      w.server.row.Live? && w' == w.(server := w.server.(row := Detached))
    case DeleteBytes =>
      w.server.row.Detached? && w' == w.(server := w.server.(stored := None))
  }

  // ---------------------------------------------------------------------------------
  // The invariant
  // ---------------------------------------------------------------------------------

  /** The staging file holds the acknowledged bytes and, beyond them, only more of the client's file. */
  ghost predicate StagingOk(s: Server, file: Blob) {
    && s.expected == |file| && s.uploaded <= |file|
    && (s.staging.Some? ==> s.uploaded <= |s.staging.value| && s.staging.value <= file)
  }

  /**
   The key receives bytes at most once, all of the file, and rows are committed at most once;
   until then only a cancellation takes the staging file away.
   */
  ghost predicate ObjectOk(s: Server, file: Blob) {
    && s.publishes <= 1
    && s.files == (if s.row.NoRow? then 0 else 1)
    && (s.publishes == 0 ==> s.stored.None? && s.row.NoRow?)
    && (s.publishes == 1 ==> s.staging.None?)
    && (s.publishes == 0 && !s.status.Cancelled? ==> s.staging.Some?)
    && (s.stored.Some? ==> s.stored.value == file)
    && (s.row.Live? ==> s.stored == Some(file))
    && (s.status.Completed? <==> !s.row.NoRow?)
  }

  ghost predicate ServerOk(s: Server, file: Blob) {
    StagingOk(s, file) && ObjectOk(s, file)
  }

  /** Every request carries bytes of the file at its offset. */
  ghost predicate RequestOk(q: Request, file: Blob) {
    q.offset + |q.body| <= |file| && q.body == file[q.offset..q.offset + |q.body|]
  }

  ghost predicate WorldOk(w: World) {
    && ServerOk(w.server, w.file)
    && (forall q | q in w.sent :: RequestOk(q, w.file))
    && (forall a | a in w.answers && a.1.Accepted? :: a.1.offset <= w.server.uploaded)
    && (forall n | n in w.seen :: n <= w.server.uploaded)
    && (w.client.Running? ==> w.client.offset <= w.server.uploaded)
    && (w.client.Waiting? ==> w.client.request in w.sent)
    && (w.completeAnswered ==> !w.server.row.NoRow?)
    && (w.client.Done? ==> w.completeAnswered)
  }

  lemma PrefixGrows(file: Blob, have: Blob, q: Request, bytes: Blob)
    requires have <= file && RequestOk(q, file) && q.offset == |have| && bytes <= q.body
    ensures have + bytes <= file
  {
    assert bytes == file[q.offset..q.offset + |bytes|];
    assert file[..|have| + |bytes|] == file[..|have|] + file[|have|..|have| + |bytes|];
  }

  /** An append keeps the server's invariant and never takes back an acknowledgement. */
  lemma AppendKeeps(s: Server, q: Request, expired: bool, s': Server, reply: Reply, file: Blob)
    requires ServerOk(s, file) && RequestOk(q, file) && AppendNext(s, q, expired, s', reply)
    ensures ServerOk(s', file) && s.uploaded <= s'.uploaded && s'.row == s.row
    ensures reply.Accepted? ==> reply.offset == s'.uploaded
  {
    if Writable(s, expired) && q.offset == s.uploaded && s.staging.Some? && |s.staging.value| == q.offset {
      var bytes: Blob :| Delivered(s, q.body, bytes) &&
        if reply == Failed then s' == WithTail(s, bytes)
        else bytes != [] && reply == Accepted(s.uploaded + |bytes|)
             && s' == WithTail(s, bytes).(uploaded := s.uploaded + |bytes|, status := Uploading);
      PrefixGrows(file, s.staging.value, q, bytes);
    }
  }

  lemma WholePrefix(have: Blob, file: Blob)
    requires have <= file
    ensures |have| == |file| ==> have == file
  {
    assert file[..|file|] == file;
  }

  /** What completion publishes is the whole file. */
  lemma CompleteKeeps(s: Server, expired: bool, accepted: bool, ending: Ending, s': Server, reply: Reply, file: Blob)
    requires ServerOk(s, file) && CompleteNext(s, expired, accepted, ending, s', reply)
    ensures ServerOk(s', file) && s.uploaded == s'.uploaded
    ensures reply.Accepted? ==> s'.row.Live? && s'.stored == Some(file)
    ensures !s.row.NoRow? ==> s' == s
  {
    if s.staging.Some? { WholePrefix(s.staging.value, file); }
  }

  /** What any event does to the server. */
  lemma ServerMoves(w: World, e: Event, w': World)
    requires ServerOk(w.server, w.file) && Next(w, e, w') && forall q | q in w.sent :: RequestOk(q, w.file)
    ensures ServerOk(w'.server, w.file) && w.server.uploaded <= w'.server.uploaded
    ensures w.server.row.Live? ==> w'.server.row.Live? || (w'.server.row.Detached? && e.DetachRow?)
    ensures w.server.row.Detached? ==> w'.server.row.Detached?
    ensures !w.server.row.NoRow? && !e.DeleteBytes? ==> w'.server.stored == w.server.stored
    ensures e.ServerAppends? && e.reply.Accepted? ==> e.reply.offset == w'.server.uploaded
    ensures e.ServerCompletes? && e.reply.Accepted? ==> w'.server.row.Live?
  {
    match e
    case ServerAppends(q, expired, reply) => AppendKeeps(w.server, q, expired, w'.server, reply, w.file);
    case ServerCompletes(expired, accepted, ending, reply) =>
      CompleteKeeps(w.server, expired, accepted, ending, w'.server, reply, w.file);
    case _ =>
  }

  /** What any event does to the client and the network, given what it did to the server. */
  lemma ClientMoves(w: World, e: Event, w': World)
    requires WorldOk(w) && Next(w, e, w') && w.server.uploaded <= w'.server.uploaded
    requires !w.server.row.NoRow? ==> !w'.server.row.NoRow?
    requires e.ServerAppends? && e.reply.Accepted? ==> e.reply.offset == w'.server.uploaded
    requires e.ServerCompletes? && e.reply.Accepted? ==> w'.server.row.Live?
    ensures (forall q | q in w'.sent :: RequestOk(q, w.file))
    ensures (forall a | a in w'.answers && a.1.Accepted? :: a.1.offset <= w'.server.uploaded)
    ensures (forall n | n in w'.seen :: n <= w'.server.uploaded)
    ensures (w'.client.Running? ==> w'.client.offset <= w'.server.uploaded)
    ensures (w'.client.Waiting? ==> w'.client.request in w'.sent)
    ensures (w'.completeAnswered ==> !w'.server.row.NoRow?) && (w'.client.Done? ==> w'.completeAnswered)
    ensures w'.file == w.file
  {
  }

  lemma NextKeeps(w: World, e: Event, w': World)
    requires WorldOk(w) && Next(w, e, w')
    ensures WorldOk(w') && w'.file == w.file && w.server.uploaded <= w'.server.uploaded
  {
    ServerMoves(w, e, w');
    ClientMoves(w, e, w');
  }

  // ---------------------------------------------------------------------------------
  // Runs
  // ---------------------------------------------------------------------------------

  ghost predicate IsRun(worlds: seq<World>, events: seq<Event>) {
    && |worlds| == |events| + 1
    && Start(worlds[0])
    && forall i | 0 <= i < |events| :: Next(worlds[i], events[i], worlds[i + 1])
  }

  lemma {:induction false} EveryRunKeeps(worlds: seq<World>, events: seq<Event>, i: nat)
    requires IsRun(worlds, events) && i < |worlds|
    ensures WorldOk(worlds[i]) && worlds[i].file == worlds[0].file
    decreases i
  {
    if i > 0 {
      EveryRunKeeps(worlds, events, i - 1);
      NextKeeps(worlds[i - 1], events[i - 1], worlds[i]);
    }
  }

  /**
   In every run the staging file starts with exactly the acknowledged bytes, those are a
   prefix of the client's file, and a client that was told the upload is complete had
   exactly one file committed; until its row is detached the object holds the whole file.
   */
  lemma UploadIsFaithful(worlds: seq<World>, events: seq<Event>, i: nat)
    requires IsRun(worlds, events) && i < |worlds|
    ensures var s, file := worlds[i].server, worlds[0].file;
      && s.uploaded <= |file|
      && (s.staging.Some? ==> s.uploaded <= |s.staging.value| && s.staging.value[..s.uploaded] == file[..s.uploaded])
      && (worlds[i].client.Done? ==> s.status.Completed? && s.files == 1)
      && (s.row.Live? ==> s.stored == Some(file))
      && s.publishes <= 1 && s.files <= 1
  {
    EveryRunKeeps(worlds, events, i);
  }

  lemma StepGrows(worlds: seq<World>, events: seq<Event>, k: nat)
    requires IsRun(worlds, events) && k < |events|
    ensures worlds[k].server.uploaded <= worlds[k + 1].server.uploaded
  {
    EveryRunKeeps(worlds, events, k);
    var w, e, w' := worlds[k], events[k], worlds[k + 1];
    NextKeeps(w, e, w');
  }

  /** An acknowledged offset is never taken back. */
  lemma {:induction false} AcknowledgedGrows(worlds: seq<World>, events: seq<Event>, i: nat, j: nat)
    requires IsRun(worlds, events) && i <= j < |worlds|
    ensures worlds[i].server.uploaded <= worlds[j].server.uploaded
    decreases j
  {
    if i < j {
      AcknowledgedGrows(worlds, events, i, j - 1);
      StepGrows(worlds, events, j - 1);
    }
  }

  /** After completion no request changes the bytes; only the delete event of a detached row does. */
  lemma {:induction false} CommittedBytesStay(worlds: seq<World>, events: seq<Event>, i: nat, j: nat)
    requires IsRun(worlds, events) && i <= j < |worlds| && !worlds[i].server.row.NoRow?
    requires forall k | i <= k < j :: !events[k].DeleteBytes?
    ensures worlds[j].server.stored == worlds[i].server.stored && !worlds[j].server.row.NoRow?
    decreases j
  {
    if i < j {
      CommittedBytesStay(worlds, events, i, j - 1);
      EveryRunKeeps(worlds, events, j - 1);
      ServerMoves(worlds[j - 1], events[j - 1], worlds[j]);
    }
  }

  // ---------------------------------------------------------------------------------
  // Healing and what the one-request-at-a-time assumption is for
  // ---------------------------------------------------------------------------------

  /**
   An append onto bytes left by a broken request fails. If its truncation succeeds, the file
   is cut back to the acknowledged offset and the next append is judged on a clean file;
   on a disk that refuses, nothing changes.
   */
  lemma FailedAppendHeals(s: Server, q: Request, s': Server, reply: Reply, file: Blob)
    requires ServerOk(s, file) && Writable(s, false) && s.staging.Some? && q.offset == s.uploaded
    requires AppendNext(s, q, false, s', reply) && |s.staging.value| != s.uploaded
    ensures reply == Failed && ServerOk(s', file)
    ensures s' == s || s' == s.(staging := Some(file[..s.uploaded]))
  {
    assert s.staging.value[..s.uploaded] == file[..s.uploaded];
  }

  /** Some completion request, however it fares, ends with the file committed. */
  ghost predicate Completable(s: Server) {
    exists expired, accepted, ending, s', reply ::
      CompleteNext(s, expired, accepted, ending, s', reply) && reply.Accepted?
  }

  /**
   A session can be completed exactly when it is writable and fully acknowledged and its
   staging file is there, that is, when no earlier completion has published: publication moves
   the file away, and a failed commit does not bring it back.
   */
  lemma CompletableIff(s: Server, file: Blob)
    requires ServerOk(s, file)
    ensures Completable(s) <==> Writable(s, false) && s.uploaded == s.expected && s.staging.Some?
    ensures Completable(s) <==> Writable(s, false) && s.uploaded == s.expected && s.publishes == 0
    ensures Completable(s) ==>
              CompleteNext(s, false, true, Committed,
                           s.(staging := None, stored := Some(file), publishes := 1, row := Live, files := 1,
                              status := Completed),
                           Accepted(|file|))
  {
    if s.staging.Some? { WholePrefix(s.staging.value, file); }
    if Writable(s, false) && s.uploaded == s.expected && s.publishes == 0 {
      var done := s.(staging := None, stored := Some(file), publishes := 1, row := Live, files := 1,
                     status := Completed);
      assert CompleteNext(s, false, true, Committed, done, Accepted(|file|));
    }
  }

  /** Published, but never committed. */
  predicate Stranded(s: Server) {
    s.publishes == 1 && s.row.NoRow?
  }

  lemma StrandedStep(w: World, e: Event, w': World)
    requires ServerOk(w.server, w.file) && Next(w, e, w') && Stranded(w.server)
    ensures Stranded(w'.server)
  {
  }

  lemma {:induction false} StrandedStays(worlds: seq<World>, events: seq<Event>, i: nat, j: nat)
    requires IsRun(worlds, events) && i <= j < |worlds| && Stranded(worlds[i].server)
    ensures Stranded(worlds[j].server)
    decreases j
  {
    if i < j {
      StrandedStays(worlds, events, i, j - 1);
      EveryRunKeeps(worlds, events, j - 1);
      StrandedStep(worlds[j - 1], events[j - 1], worlds[j]);
    }
  }

  /** Once a publication was not followed by its commit, no run of events ever completes the upload. */
  lemma StrandedForever(worlds: seq<World>, events: seq<Event>, i: nat, j: nat)
    requires IsRun(worlds, events) && i <= j < |worlds| && Stranded(worlds[i].server)
    ensures Stranded(worlds[j].server) && !Completable(worlds[j].server) && !worlds[j].client.Done?
  {
    StrandedStays(worlds, events, i, j);
    EveryRunKeeps(worlds, events, j);
    CompletableIff(worlds[j].server, worlds[j].file);
  }

  ghost predicate Reachable(w: World) {
    exists worlds: seq<World>, events: seq<Event> :: IsRun(worlds, events) && worlds[|worlds| - 1] == w
  }

  lemma StartIsReachable(w: World)
    requires Start(w)
    ensures Reachable(w)
  {
    assert IsRun([w], []);
  }

  lemma NextIsReachable(w: World, e: Event, w': World)
    requires Reachable(w) && Next(w, e, w')
    ensures Reachable(w')
  {
    var worlds: seq<World>, events: seq<Event> :| IsRun(worlds, events) && worlds[|worlds| - 1] == w;
    assert IsRun(worlds + [w'], events + [e]);
  }

  const ONE_BYTE: Blob := [7]

  const WHOLE := Request(0, ONE_BYTE)

  /** A client that has sent the one chunk of a one-byte file. */
  function Sent(server: Server, answers: set<(Request, Reply)>, seen: set<nat>): World {
    World(ONE_BYTE, server, Waiting(WHOLE), {WHOLE}, answers, seen, false, false)
  }

  const EMPTY_SESSION := Server(1, 0, Created, Some([]), None, NoRow, 0, 0)

  const FULL_SESSION := Server(1, 1, Uploading, Some(ONE_BYTE), None, NoRow, 0, 0)

  lemma OneChunkSent()
    ensures Reachable(Sent(EMPTY_SESSION, {}, {0}))
  {
    var w := World(ONE_BYTE, EMPTY_SESSION, Pending, {}, {}, {0}, false, false);
    var running := w.(client := Running(0));
    StartIsReachable(w);
    NextIsReachable(w, StartAnswered, running);
    assert ChunkAt(ONE_BYTE, 0) == ONE_BYTE;
    NextIsReachable(running, SendChunk, Sent(EMPTY_SESSION, {}, {0}));
  }

  lemma WholeAccepted(s: Server)
    requires s == EMPTY_SESSION
    ensures AppendNext(s, WHOLE, false, FULL_SESSION, Accepted(1))
  {
    AppendMayAccept(s, WHOLE, false, ONE_BYTE);
    assert [] + ONE_BYTE == ONE_BYTE;
    assert WithTail(s, ONE_BYTE).(uploaded := s.uploaded + 1, status := Uploading) == FULL_SESSION;
  }

  /**
   A run that strands its upload: the chunk is acknowledged, completion publishes, the commit fails
   and is compensated.
   */
  lemma FailedCommitStrandsUpload() returns (w: World)
    ensures Reachable(w) && Writable(w.server, false) && w.server.uploaded == w.server.expected == |w.file|
    ensures Stranded(w.server) && w.server.stored.None? && !Completable(w.server)
  {
    OneChunkSent();
    WholeAccepted(EMPTY_SESSION);
    var sent := Sent(EMPTY_SESSION, {}, {0});
    var acked := Sent(FULL_SESSION, {(WHOLE, Accepted(1))}, {0, 1});
    NextIsReachable(sent, ServerAppends(WHOLE, false, Accepted(1)), acked);
    var running := acked.(client := Running(1));
    NextIsReachable(acked, ClientReads(Accepted(1)), running);
    var asked := running.(client := Finishing, completeAsked := true);
    NextIsReachable(running, AskComplete, asked);
    w := asked.(server := FULL_SESSION.(staging := None, publishes := 1));
    NextIsReachable(asked, ServerCompletes(false, true, Compensated, Failed), w);
  }

  /** The truncation that compensates a failed commit, taken as a step of its own. */
  function LateTruncate(s: Server, offset: nat): Server {
    if s.staging.Some? then s.(staging := Some(Truncated(s.staging.value, offset))) else s
  }

  /**
   If another append is acknowledged before the compensation of an earlier one runs, the
   compensation cuts acknowledged bytes away, and this happens exactly when it cuts below
   the acknowledged offset.
   */
  lemma LateCompensationIff(s: Server, offset: nat, file: Blob)
    requires ServerOk(s, file) && s.staging.Some? && offset <= |s.staging.value|
    ensures ServerOk(LateTruncate(s, offset), file) <==> offset >= s.uploaded
  {
    assert s.staging.value[..offset] <= file;
  }

  /**
   One such interleaving, reachable up to the truncation: an append is written and its commit
   fails, the request arrives again and heals the file, arrives a third time and is accepted,
   and only then does the first truncation run.
   */
  lemma LateCompensationLosesBytes() returns (torn: World, healed: World, acked: World)
    ensures Reachable(torn) && torn.server.staging == Some(ONE_BYTE) && torn.server.uploaded == 0
    ensures Next(torn, ServerAppends(WHOLE, false, Failed), healed) && healed.server == EMPTY_SESSION
    ensures Next(healed, ServerAppends(WHOLE, false, Accepted(1)), acked)
    ensures Reachable(acked) && acked.server.uploaded == 1 && ServerOk(acked.server, acked.file)
    ensures !ServerOk(LateTruncate(acked.server, 0), acked.file)
  {
    OneChunkSent();
    var sent := Sent(EMPTY_SESSION, {}, {0});
    torn := Sent(WithTail(EMPTY_SESSION, ONE_BYTE), {(WHOLE, Failed)}, {0});
    AppendMayFail(EMPTY_SESSION, WHOLE, false, ONE_BYTE);
    NextIsReachable(sent, ServerAppends(WHOLE, false, Failed), torn);
    healed := Sent(EMPTY_SESSION, {(WHOLE, Failed)}, {0});
    assert torn.server.staging == Some(ONE_BYTE) by { assert [] + ONE_BYTE == ONE_BYTE; }
    assert Truncated(ONE_BYTE, 0) == [];
    NextIsReachable(torn, ServerAppends(WHOLE, false, Failed), healed);
    acked := Sent(FULL_SESSION, {(WHOLE, Failed), (WHOLE, Accepted(1))}, {0, 1});
    WholeAccepted(EMPTY_SESSION);
    NextIsReachable(healed, ServerAppends(WHOLE, false, Accepted(1)), acked);
  }
}
