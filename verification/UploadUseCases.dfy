/**
 The upload use cases and the client's per-file loop as they run, proved to make only the
 moves of the protocol.
 */
module UploadUseCases {
  import opened Outcomes
  import opened Bytes
  import opened LocalStorage
  import opened UploadProtocol

  const INSPECTION_PREFIX_SIZE: nat := 64 * 1024

  /**
   The request body as the use case iterates over it: fragments pass until one would exceed
   the chunk limit or what the upload still expects.
   */
  method LetThrough(fragments: seq<Blob>, maximumSize: nat, remaining: nat) returns (passed: seq<Blob>, tripped: bool)
    ensures passed <= fragments && Flatten(passed) <= Flatten(fragments)
    ensures |Flatten(passed)| <= maximumSize && |Flatten(passed)| <= remaining
    ensures !tripped <==> passed == fragments
    ensures tripped ==> |passed| < |fragments|
                        && (|Flatten(passed + [fragments[|passed|]])| > maximumSize
                            || |Flatten(passed + [fragments[|passed|]])| > remaining)
    ensures tripped ==> |Flatten(fragments)| > maximumSize || |Flatten(fragments)| > remaining
  {
    var size := 0;
    var i := 0;
    while i < |fragments|
      invariant 0 <= i <= |fragments|
      invariant size == |Flatten(fragments[..i])| && size <= maximumSize && size <= remaining
    {
      var nextSize := size + |fragments[i]|;
      FlattenPrefix(fragments, i);
      if nextSize > maximumSize || nextSize > remaining {
        FlattenStep(fragments, i);
        FlattenPrefix(fragments, i + 1);
        assert fragments[..i] + [fragments[i]] == fragments[..i + 1];
        return fragments[..i], true;
      }
      FlattenStep(fragments, i);
      size := nextSize;
      i := i + 1;
    }
    assert fragments[..i] == fragments;
    return fragments, false;
  }

  /** The part of a file that the type detector sees. */
  function Head(content: Blob): Blob {
    if |content| <= INSPECTION_PREFIX_SIZE then content else content[..INSPECTION_PREFIX_SIZE]
  }

  lemma HeadGrows(content: Blob, chunk: Blob)
    ensures Head(content + chunk) ==
      if |content| >= INSPECTION_PREFIX_SIZE then Head(content)
      else content + (if |chunk| <= INSPECTION_PREFIX_SIZE - |content| then chunk
                      else chunk[..INSPECTION_PREFIX_SIZE - |content|])
  {
  }

  /** One pass over the staged bytes: their number, and the part handed to the type detector. */
  method InspectStream(chunks: seq<Blob>) returns (size: nat, prefix: Blob)
    ensures size == |Flatten(chunks)| && prefix == Head(Flatten(chunks))
  {
    size, prefix := 0, [];
    for i := 0 to |chunks|
      invariant size == |Flatten(chunks[..i])| && prefix == Head(Flatten(chunks[..i]))
    {
      var chunk := chunks[i];
      FlattenStep(chunks, i);
      HeadGrows(Flatten(chunks[..i]), chunk);
      size := size + |chunk|;
      if |prefix| < INSPECTION_PREFIX_SIZE {
        var room := INSPECTION_PREFIX_SIZE - |prefix|;
        prefix := prefix + (if |chunk| <= room then chunk else chunk[..room]);
      }
    }
    assert chunks[..|chunks|] == chunks;
  }

  /** What the environment decides about one request. */
  datatype Weather = Weather(
    arrives: bool, cut: nat, ended: bool, commits: bool, expired: bool,
    accepted: bool, ending: Ending, answered: bool)

  /** Nothing goes wrong: the request arrives whole, commits, and its answer comes back. */
  predicate Calm(w: Weather, chunk: nat) {
    w.arrives && w.cut >= chunk && w.ended && w.commits && !w.expired && w.accepted && w.ending.Committed? && w.answered
  }

  class UploadServer {
    const expected: nat
    const maximumChunkSize: nat
    const bufferSize: nat
    const blockSize: nat
    var uploaded: nat
    var status: Status
    var staging: FileHandle?
    var stored: Option<Blob>
    var row: Row
    ghost var publishes: nat
    ghost var files: nat

    ghost function State(): Server
      reads this, staging
    {
      Server(expected, uploaded, status, if staging == null then None else Some(staging.content), stored, row,
             publishes, files)
    }

    /** The session and its files satisfy the protocol's invariant for this client file. */
    ghost predicate For(file: Blob)
      reads this, staging
    {
      ServerOk(State(), file) && bufferSize > 0 && blockSize > 0
    }

    /** No bytes beyond the acknowledged ones. */
    ghost predicate Clean()
      reads this, staging
    {
      staging != null && |staging.content| == uploaded
    }

    ghost predicate Open()
      reads this, staging
    {
      Writable(State(), false) && staging != null && staging.healthy && stored.None? && maximumChunkSize >= CHUNK
    }

    constructor (size: nat, maximumChunkSize: nat, bufferSize: nat, blockSize: nat, healthy: bool)
      requires bufferSize > 0 && blockSize > 0
      ensures State() == Server(size, 0, Created, Some([]), None, NoRow, 0, 0)
      ensures forall file | |file| == size :: For(file)
      ensures fresh(staging)
    {
      expected, uploaded, status, stored, row := size, 0, Created, None, NoRow;
      this.maximumChunkSize, this.bufferSize, this.blockSize := maximumChunkSize, bufferSize, blockSize;
      publishes, files := 0, 0;
      staging := new FileHandle([], healthy);
    }

    method Append(offset: nat, fragments: seq<Blob>, w: Weather, ghost body: Blob) returns (reply: Reply)
      requires bufferSize > 0 && uploaded <= expected && Flatten(fragments) <= body
      modifies this, staging
      ensures AppendNext(old(State()), Request(offset, body), w.expired, State(), reply)
      ensures staging == old(staging)
      ensures old(Open() && Clean()) && !w.expired && w.ended && w.commits && offset == old(uploaded)
              && Flatten(fragments) == body && 0 < |body| <= CHUNK && offset + |body| <= expected
              ==> reply == Accepted(offset + |body|) && Open() && Clean()
      ensures old(Open() && !Clean()) && !w.expired && offset == old(uploaded) ==>
              reply == Failed && staging.content == Truncated(old(staging.content), offset)
              && Open() && uploaded == old(uploaded)
    {
      if w.expired || !(status.Created? || status.Uploading?) {
        return Refused;
      }
      if offset != uploaded {
        return Mismatch(uploaded);
      }
      if staging == null {
        return Failed;
      }
      reply := Persist(fragments, w, body);
    }

    /** Write, check, record progress and commit; a failure after the write truncates again. */
    method Persist(fragments: seq<Blob>, w: Weather, ghost body: Blob) returns (reply: Reply)
      requires bufferSize > 0 && uploaded <= expected && Flatten(fragments) <= body
      requires staging != null && Writable(State(), w.expired)
      modifies this`uploaded, this`status, staging
      ensures AppendNext(old(State()), Request(old(uploaded), body), w.expired, State(), reply)
      ensures old(Clean()) && staging.healthy && maximumChunkSize >= CHUNK && w.ended && w.commits
              && Flatten(fragments) == body && 0 < |body| <= CHUNK && old(uploaded) + |body| <= expected
              ==> reply == Accepted(old(uploaded) + |body|) && Clean()
      ensures old(!Clean()) && staging.healthy ==>
              reply == Failed && staging.content == Truncated(old(staging.content), uploaded)
              && uploaded == old(uploaded)
      ensures Writable(State(), w.expired)
    {
      var previousOffset := uploaded;
      ghost var s, q := State(), Request(uploaded, body);
      var persisted, size, tail := Receive(fragments, w.ended, body);
      if persisted.Err? {
        if old(Clean()) {
          AppendMayFail(s, q, w.expired, tail);
        }
        return Failed;
      }
      if size == 0 || !w.commits {
        ghost var before := s.staging.value;
        var truncated := staging.Truncate(previousOffset);
        ghost var kept: Blob := if truncated then [] else tail;
        assert staging.content == before + kept;
        AppendMayFail(s, q, w.expired, kept);
        return Failed;
      }
      AppendMayAccept(s, q, w.expired, tail);
      uploaded, status := persisted.value, Uploading;
      reply := Accepted(persisted.value);
    }

    /** Stream the body into the staging file; `tail` is what it holds beyond the old bytes. */
    method Receive(fragments: seq<Blob>, ended: bool, ghost body: Blob)
      returns (persisted: Result<nat, AppendError>, size: nat, ghost tail: Blob)
      requires bufferSize > 0 && uploaded <= expected && Flatten(fragments) <= body && staging != null
      modifies staging
      ensures old(Clean()) ==> staging.content == old(staging.content) + tail && Delivered(State(), body, tail)
      ensures persisted.Ok? ==> old(Clean()) && size == |tail| && persisted.value == uploaded + size
      ensures old(Clean()) && staging.healthy && maximumChunkSize >= CHUNK && ended
              && Flatten(fragments) == body && |body| <= CHUNK && uploaded + |body| <= expected
              ==> persisted.Ok? && tail == body
      ensures old(!Clean()) ==>
              persisted.Err? && staging.content in {old(staging.content), Truncated(old(staging.content), uploaded)}
      ensures old(!Clean()) && staging.healthy ==> staging.content == Truncated(old(staging.content), uploaded)
    {
      tail := [];
      var passed, tripped := LetThrough(fragments, maximumChunkSize, expected - uploaded);
      ghost var cut;
      persisted, cut := AppendChunk(staging, uploaded, passed, ended && !tripped, bufferSize);
      size := |Flatten(passed)|;
      if old(Clean()) {
        tail := staging.content[|old(staging.content)|..];
        assert staging.content == old(staging.content) + tail;
      }
    }

    method Complete(w: Weather) returns (reply: Reply)
      requires bufferSize > 0 && blockSize > 0
      modifies this
      ensures CompleteNext(old(State()), w.expired, w.accepted, w.ending, State(), reply)
      ensures staging == old(staging) || staging == null
    {
      if w.expired || !(status.Created? || status.Uploading?) || uploaded != expected {
        return Refused;
      }
      if staging == null {
        return Failed;
      }
      var chunks := StreamPath(staging.content, None, blockSize);
      var inspectedSize, prefix := InspectStream(chunks.value);
      if inspectedSize != expected || |staging.content| != inspectedSize || !w.accepted || stored.Some? {
        return Failed;
      }
      // os.replace moves the staged bytes under the object key.
      stored, staging, publishes := Some(staging.content), null, publishes + 1;
      match w.ending
      case Committed =>
        row, files, status := Live, files + 1, Completed;
        reply := Accepted(expected);
      case Compensated =>
        stored := None;
        reply := Failed;
      case Crashed =>
        reply := Failed;
    }

    method Cancel(discards: bool) returns (reply: Reply)
      modifies this
      ensures CancelNext(old(State()), discards, State(), reply)
    {
      if status.Completed? {
        return Refused;
      }
      reply := Accepted(uploaded);
      status := Cancelled;
      if discards {
        staging := null;
      }
    }
  }

  // ---------------------------------------------------------------------------------
  // The client
  // ---------------------------------------------------------------------------------

  datatype TaskState = Finished | Broken

  ghost predicate AllCalm(net: seq<Weather>) {
    forall i | 0 <= i < |net| :: Calm(net[i], CHUNK)
  }

  function Earlier(a: nat, b: nat): nat {
    if a < b then a else b
  }

  /** One request for each chunk of the file, and one to complete. */
  predicate Enough(net: seq<Weather>, file: Blob) {
    net != [] && (|net| - 1) * CHUNK >= |file|
  }

  /** The client's next offset, or none if the upload breaks off. */
  method SendChunk(server: UploadServer, file: Blob, offset: nat, w: Weather) returns (next: Option<nat>)
    requires server.For(file) && offset < |file|
    modifies server, server.staging
    ensures server.For(file) && server.uploaded >= old(server.uploaded) && server.row == old(server.row)
    ensures server.staging == old(server.staging)
    ensures next.Some? ==> next.value <= server.uploaded
    ensures old(server.Open() && server.Clean()) && offset == old(server.uploaded) && Calm(w, CHUNK) ==>
              server.Open() && server.Clean() && next == Some(server.uploaded)
              && server.uploaded == Earlier(offset + CHUNK, |file|)
    ensures old(server.Open() && !server.Clean()) && offset == old(server.uploaded) && Calm(w, CHUNK) ==>
              server.Open() && server.Clean() && next == None
  {
    var chunk := ChunkAt(file, offset);
    if !w.arrives {
      return None;
    }
    var fragments := Fragment(if w.cut <= |chunk| then chunk[..w.cut] else chunk);
    ghost var before := server.State();
    var reply := server.Append(offset, fragments, w, chunk);
    AppendKeeps(before, Request(offset, chunk), w.expired, server.State(), reply, file);
    if !w.answered {
      return None;
    }
    match reply
    case Accepted(n) =>
      next := Some(n);
    case Mismatch(_) =>
      next := if server.status.Created? || server.status.Uploading? then Some(server.uploaded) else None;
    case _ =>
      next := None;
  }

  /**
   The loop that sends chunk after chunk from the acknowledged offset, asks for the offset
   again after a mismatch, and completes at the end. Each step of `net` is what happens to
   one append or completion; when it is used up the upload is aborted.
   */
  method ProcessUpload(server: UploadServer, file: Blob, net: seq<Weather>) returns (state: TaskState)
    requires server.For(file)
    modifies server, server.staging
    ensures server.For(file) && server.uploaded >= old(server.uploaded)
    ensures server.staging == old(server.staging) || server.staging == null
    ensures state == Finished ==> server.row.Live? && server.stored == Some(file) && server.files == 1
    ensures old(server.Open() && server.Clean()) && AllCalm(net) && Enough(net, file) ==> state == Finished
    ensures old(server.Open() && !server.Clean()) && AllCalm(net) && Enough(net, file) ==>
              state == Broken && server.Open() && server.Clean()
    ensures old(Stranded(server.State())) ==> state == Broken
  {
    if !(server.status.Created? || server.status.Uploading?) || server.expected != |file| {
      return Broken;
    }
    ghost var calm := server.Open() && server.Clean() && AllCalm(net);
    ghost var torn := server.Open() && !server.Clean() && AllCalm(net);
    var offset := server.uploaded;
    var i := 0;
    while offset < |file|
      invariant 0 <= i <= |net| && 0 <= offset && server.For(file) && offset <= server.uploaded
      invariant server.staging == old(server.staging) && server.uploaded >= old(server.uploaded)
      invariant server.row == old(server.row)
      invariant calm ==> server.Open() && server.Clean() && offset == server.uploaded
      invariant calm ==> offset >= Earlier(i * CHUNK, |file|) && (i == 0 || (i - 1) * CHUNK < |file|)
      invariant torn ==> i == 0 && server.Open() && !server.Clean() && offset == server.uploaded
      decreases |net| - i
    {
      if i == |net| {
        return Broken;
      }
      var next := SendChunk(server, file, offset, net[i]);
      i := i + 1;
      if next.None? {
        return Broken;
      }
      offset := next.value;
    }
    if i == |net| || !net[i].arrives {
      return Broken;
    }
    ghost var before := server.State();
    var reply := server.Complete(net[i]);
    CompleteKeeps(before, net[i].expired, net[i].accepted, net[i].ending, server.State(), reply, file);
    state := if net[i].answered && reply.Accepted? then Finished else Broken;
  }

  /** A body arrives in fragments of any size. */
  method Fragment(body: Blob) returns (fragments: seq<Blob>)
    ensures Flatten(fragments) == body
  {
    assert Flatten([body]) == body + Flatten([]) == body;
    fragments :| Flatten(fragments) == body;
  }

  /**
   Retrying a broken task resumes the same session. Over a calm network one retry is enough
   to publish the whole file, whatever an earlier broken request left in the staging file.
   */
  method RetryUpload(server: UploadServer, file: Blob, first: seq<Weather>, second: seq<Weather>)
    returns (state: TaskState)
    requires server.For(file) && server.Open()
    requires AllCalm(first) && AllCalm(second) && Enough(first, file) && Enough(second, file)
    modifies server, server.staging
    ensures state == Finished && server.stored == Some(file) && server.row.Live? && server.files == 1
  {
    state := ProcessUpload(server, file, first);
    if state == Broken {
      state := ProcessUpload(server, file, second);
    }
  }
}
