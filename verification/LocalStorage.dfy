/**
 The loops of the local file provider: coalescing small fragments, writing through partial
 writes, appending to a staging file with compensation, and streaming a range back.
 */
module LocalStorage {
  import opened Outcomes
  import opened Bytes

  // ---------------------------------------------------------------------------------
  // Coalescing
  // ---------------------------------------------------------------------------------

  /** Every block but possibly the last is at least `size` long; longer ones are whole fragments. */
  predicate WellCoalesced(blocks: seq<Blob>, fragments: seq<Blob>, size: nat) {
    && (forall i | 0 <= i < |blocks| - 1 :: |blocks[i]| >= size)
    && (forall i | 0 <= i < |blocks| :: |blocks[i]| <= size || blocks[i] in fragments)
  }

  /** The buffer keeps less than one block between fragments. */
  predicate Buffering(blocks: seq<Blob>, pending: Blob, fragments: seq<Blob>, size: nat) {
    && |pending| < size
    && (forall i | 0 <= i < |blocks| :: |blocks[i]| >= size)
    && (forall i | 0 <= i < |blocks| :: |blocks[i]| <= size || blocks[i] in fragments)
  }

  lemma MovePiece(sent: Blob, pending: Blob, before: Blob, chunk: Blob, from: nat, to: nat)
    requires from <= to <= |chunk| && sent + pending == before + chunk[..from]
    ensures sent + (pending + chunk[from..to]) == before + chunk[..to]
  {
    assert chunk[..to] == chunk[..from] + chunk[from..to];
    assert sent + (pending + chunk[from..to]) == (sent + pending) + chunk[from..to];
  }

  lemma EmitBuffer(blocks: seq<Blob>, pending: Blob)
    ensures Flatten(blocks + [pending]) + [] == Flatten(blocks) + pending
  {
    FlattenSnoc(blocks, pending);
  }

  /**
   Move one fragment through the buffer. At no point does the buffer hold more than `size`
   bytes, and it is emitted as soon as it is full.
   */
  method AddFragment(blocks: seq<Blob>, buffer: Blob, chunk: Blob, size: nat, ghost fragments: seq<Blob>)
    returns (emitted: seq<Blob>, pending: Blob)
    requires size > 0 && Buffering(blocks, buffer, fragments, size)
    ensures Flatten(emitted) + pending == Flatten(blocks) + buffer + chunk
    ensures Buffering(emitted, pending, fragments, size)
  {
    emitted, pending := blocks, buffer;
    var position := 0;
    while position < |chunk|
      invariant 0 <= position <= |chunk|
      invariant Flatten(emitted) + pending == Flatten(blocks) + buffer + chunk[..position]
      invariant Buffering(emitted, pending, fragments, size)
    {
      var remainingCapacity := size - |pending|;
      var nextPosition := if position + remainingCapacity < |chunk| then position + remainingCapacity else |chunk|;
      MovePiece(Flatten(emitted), pending, Flatten(blocks) + buffer, chunk, position, nextPosition);
      pending := pending + chunk[position..nextPosition];
      position := nextPosition;
      assert |pending| <= size;
      if |pending| == size {
        EmitBuffer(emitted, pending);
        emitted := emitted + [pending];
        pending := [];
      }
    }
    assert chunk[..position] == chunk;
  }

  /**
   Blocks in the order they are yielded. When the source ends abnormally the buffer is
   dropped instead of flushed, and comes back as `pending`.
   */
  method CoalesceChunks(fragments: seq<Blob>, ended: bool, size: nat) returns (blocks: seq<Blob>, pending: Blob)
    requires size > 0
    ensures Flatten(blocks) + pending == Flatten(fragments)
    ensures |pending| < size && (ended ==> pending == [])
    ensures WellCoalesced(blocks, fragments, size)
  {
    blocks, pending := [], [];
    for i := 0 to |fragments|
      invariant Flatten(blocks) + pending == Flatten(fragments[..i])
      invariant Buffering(blocks, pending, fragments, size)
    {
      FlattenStep(fragments, i);
      blocks, pending := NextFragment(blocks, pending, fragments[i], size, fragments);
    }
    assert fragments[..|fragments|] == fragments;
    if ended && pending != [] {
      EmitBuffer(blocks, pending);
      blocks := blocks + [pending];
      pending := [];
    }
  }

  /** Empty fragments are skipped and large ones bypass an empty buffer. */
  method NextFragment(blocks: seq<Blob>, buffer: Blob, chunk: Blob, size: nat, ghost fragments: seq<Blob>)
    returns (emitted: seq<Blob>, pending: Blob)
    requires size > 0 && Buffering(blocks, buffer, fragments, size) && chunk in fragments
    ensures Flatten(emitted) + pending == Flatten(blocks) + buffer + chunk
    ensures Buffering(emitted, pending, fragments, size)
  {
    if chunk == [] {
      emitted, pending := blocks, buffer;
    } else if buffer == [] && |chunk| >= size {
      EmitBuffer(blocks, chunk);
      emitted, pending := blocks + [chunk], [];
    } else {
      emitted, pending := AddFragment(blocks, buffer, chunk, size, fragments);
    }
  }

  // ---------------------------------------------------------------------------------
  // Writing
  // ---------------------------------------------------------------------------------

  /** An unbuffered handle; on a disk that is not healthy any operation may fail. */
  class FileHandle {
    var content: Blob
    var position: nat
    const healthy: bool

    constructor (content: Blob, healthy: bool)
      ensures this.content == content && this.position == 0 && this.healthy == healthy
    {
      this.content, this.position, this.healthy := content, 0, healthy;
    }

    /** Write some prefix of `view` at the end of the file; not positive means no progress. */
    method Write(view: Blob) returns (written: int)
      requires position == |content| && view != []
      modifies this
      ensures written <= |view| && (healthy ==> written > 0)
      ensures content == old(content) + (if written > 0 then view[..written] else [])
      ensures position == |content|
    {
      written :| written <= |view| && (healthy ==> written > 0);
      if written > 0 {
        content := content + view[..written];
        position := |content|;
      }
    }

    /** Persist the payload although the file system may write it in parts. */
    method WriteAll(payload: Blob) returns (ok: bool)
      requires position == |content|
      modifies this
      ensures position == |content| && (healthy ==> ok)
      ensures ok ==> content == old(content) + payload
      ensures old(content) <= content <= old(content) + payload
    {
      var view := payload;
      while view != []
        invariant position == |content| && |view| <= |payload| && view == payload[|payload| - |view|..]
        invariant content == old(content) + payload[..|payload| - |view|]
        decreases |view|
      {
        ghost var done := |payload| - |view|;
        var written := Write(view);
        if written <= 0 {
          return false;
        }
        assert payload[..done + written] == payload[..done] + view[..written];
        view := view[written..];
      }
      assert payload[..|payload|] == payload;
      ok := true;
    }

    /** Cut, or extend with zeros, to `size` bytes. */
    method Truncate(size: nat) returns (ok: bool)
      modifies this
      ensures content == if ok then Truncated(old(content), size) else old(content)
      ensures healthy ==> ok
    {
      ok :| healthy ==> ok;
      if ok {
        content := Truncated(content, size);
      }
    }
  }

  /** Exactly `size` bytes: those of the content as far as it reaches, then zeros. */
  function Truncated(content: Blob, size: nat): (r: Blob)
    ensures |r| == size && forall i | 0 <= i < size :: r[i] == if i < |content| then content[i] else 0
  {
    if size <= |content| then content[..size] else content + seq(size - |content|, i => 0)
  }

  datatype AppendError = Inconsistent | DiskFailure | StreamAborted

  /**
   Append what the body delivers at the acknowledged offset. Only failures of the disk and an
   unexpected size are compensated by truncating; an aborted body leaves what was written.
   `cut` tells whether a truncation took effect, as it always does on a healthy disk.
   */
  method AppendChunk(file: FileHandle, offset: nat, fragments: seq<Blob>, ended: bool, bufferSize: nat)
    returns (r: Result<nat, AppendError>, ghost cut: bool)
    requires bufferSize > 0
    modifies file
    ensures |old(file.content)| != offset <==> r == Err(Inconsistent)
    ensures r == Err(Inconsistent) ==>
              file.content == if cut then Truncated(old(file.content), offset) else old(file.content)
    ensures r == Err(DiskFailure) ==> !file.healthy && (cut ==> file.content == old(file.content))
    ensures r == Err(StreamAborted) ==> !ended
    ensures file.healthy && r == Err(Inconsistent) ==> cut
    ensures |old(file.content)| == offset ==>
              old(file.content) <= file.content <= old(file.content) + Flatten(fragments)
    ensures r.Ok? ==> ended && file.content == old(file.content) + Flatten(fragments) && r.value == |file.content|
    ensures |old(file.content)| == offset && file.healthy ==> (r.Ok? <==> ended)
  {
    if |file.content| != offset {
      cut := file.Truncate(offset);
      return Err(Inconsistent), cut;
    }
    file.position := offset;
    var blocks, pending := CoalesceChunks(fragments, ended, bufferSize);
    var ok := WriteBlocks(file, blocks);
    if !ok {
      cut := file.Truncate(offset);
      assert cut ==> file.content == old(file.content);
      return Err(DiskFailure), cut;
    }
    cut := false;
    r := if ended then Ok(|file.content|) else Err(StreamAborted);
  }

  method WriteBlocks(file: FileHandle, blocks: seq<Blob>) returns (ok: bool)
    requires file.position == |file.content|
    modifies file
    ensures file.healthy ==> ok
    ensures ok ==> file.content == old(file.content) + Flatten(blocks)
    ensures old(file.content) <= file.content <= old(file.content) + Flatten(blocks)
  {
    var i := 0;
    while i < |blocks|
      invariant 0 <= i <= |blocks| && file.position == |file.content|
      invariant file.content == old(file.content) + Flatten(blocks[..i])
    {
      FlattenStep(blocks, i);
      FlattenPrefix(blocks, i + 1);
      var written := file.WriteAll(blocks[i]);
      if !written {
        assert file.content <= old(file.content) + Flatten(blocks[..i + 1]);
        return false;
      }
      i := i + 1;
    }
    assert blocks[..i] == blocks;
    ok := true;
  }

  lemma FlattenPrefix(blocks: seq<Blob>, i: nat)
    requires i <= |blocks|
    ensures Flatten(blocks[..i]) <= Flatten(blocks)
  {
    assert blocks[..i] + blocks[i..] == blocks;
    FlattenAppend(blocks[..i], blocks[i..]);
  }

  // ---------------------------------------------------------------------------------
  // Reading
  // ---------------------------------------------------------------------------------

  datatype ByteRange = ByteRange(start: int, end: int)

  /** The bytes from `start` to `end`, both included, as far as the file reaches. */
  function Slice(content: Blob, start: nat, end: nat): Blob {
    var hi := if end + 1 <= |content| then end + 1 else |content|;
    if start <= hi then content[start..hi] else []
  }

  lemma ReadOn(content: Blob, start: nat, position: nat, got: nat, out: seq<Blob>)
    requires start <= position && position + got <= |content| && Flatten(out) == content[start..position]
    ensures Flatten(out + [content[position..position + got]]) == content[start..position + got]
  {
    FlattenSnoc(out, content[position..position + got]);
  }

  /**
   Read block by block until the range is exhausted or the file ends; a read may return
   fewer bytes than asked for. None stands for a range the provider rejects.
   */
  method StreamPath(content: Blob, range: Option<ByteRange>, blockSize: nat) returns (chunks: Option<seq<Blob>>)
    requires blockSize > 0
    ensures chunks.None? <==> range.Some? && (range.value.start < 0 || range.value.end < range.value.start)
    ensures chunks.Some? ==>
              Flatten(chunks.value)
              == (if range.Some? then Slice(content, range.value.start, range.value.end) else content)
    ensures chunks.Some? ==> forall i | 0 <= i < |chunks.value| :: 1 <= |chunks.value[i]| <= blockSize
  {
    if range.Some? && (range.value.start < 0 || range.value.end < range.value.start) {
      return None;
    }
    var start := if range.Some? then range.value.start else 0;
    var position: nat := start;
    var remaining: Option<nat> := if range.Some? then Some(range.value.end - range.value.start + 1) else None;
    var out: seq<Blob> := [];
    ghost var stop: nat := if range.Some? && range.value.end + 1 <= |content| then range.value.end + 1 else |content|;
    while remaining.None? || remaining.value > 0
      invariant range.None? <==> remaining.None?
      invariant start <= position && (position <= stop || position == start)
      invariant range.Some? ==> position + remaining.value == range.value.end + 1
      invariant Flatten(out) == if start <= position <= stop then content[start..position] else []
      invariant forall i | 0 <= i < |out| :: 1 <= |out[i]| <= blockSize
      decreases if position < |content| then |content| - position else 0, if remaining.None? then 1 else remaining.value
    {
      var size := if remaining.None? || blockSize <= remaining.value then blockSize else remaining.value;
      if position >= |content| {
        break;
      }
      var available := if size <= |content| - position then size else |content| - position;
      var got: nat :| 1 <= got <= available;
      var chunk := content[position..position + got];
      if remaining.Some? {
        remaining := Some(remaining.value - got);
      }
      ReadOn(content, start, position, got, out);
      out := out + [chunk];
      position := position + got;
    }
    chunks := Some(out);
  }
}
