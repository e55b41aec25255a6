/** The bytes a download sends for a list of ranges, and the length it announces beforehand. */
module RangeDelivery {
  import opened Outcomes
  import opened Bytes
  import opened Decimals
  import opened LocalStorage
  import opened Ranges
  import opened MultipartReader

  /** Boundary and media type are already encoded. */
  function PartHeader(r: ByteRange, boundary: Blob, mime: Blob, total: nat): Blob {
    Text("--") + boundary + CRLF
    + Text("Content-Type: ") + mime + CRLF
    + Text("Content-Range: bytes ") + Text(Show(r.start)) + Text("-") + Text(Show(r.end)) + Text("/")
      + Text(Show(total)) + CRLF
    + CRLF
  }

  /** What surrounds the ranges of one response: a header for each, and the closing delimiter. */
  datatype Framing = Framing(header: ByteRange -> Blob, closing: Blob)

  function HttpFraming(boundary: Blob, mime: Blob, total: nat): Framing {
    Framing(r => PartHeader(r, boundary, mime, total), Text("--") + boundary + Text("--\r\n"))
  }

  /** Section 14.6 of RFC 9110: one part per range, each behind its header, and the closing delimiter. */
  function Multipart(content: Blob, rs: seq<ByteRange>, f: Framing): Blob
    requires Within(rs, |content|)
  {
    if rs == [] then f.closing
    else f.header(rs[0]) + Slice(content, rs[0].start, rs[0].end) + CRLF + Multipart(content, rs[1..], f)
  }

  function Body(content: Blob, rs: seq<ByteRange>, f: Framing): Blob
    requires Within(rs, |content|)
  {
    if rs == [] then content
    else if |rs| == 1 then Slice(content, rs[0].start, rs[0].end)
    else Multipart(content, rs, f)
  }

  function Total(rs: seq<ByteRange>): int {
    if rs == [] then 0 else Length(rs[0]) + Total(rs[1..])
  }

  /** Content-Length of a multipart response, computed without reading the file. */
  method MultipartLength(rs: seq<ByteRange>, f: Framing, ghost content: Blob) returns (length: nat)
    requires Within(rs, |content|)
    ensures length == |Multipart(content, rs, f)|
  {
    length := 0;
    var i := 0;
    while i < |rs|
      invariant 0 <= i <= |rs|
      invariant length + |Multipart(content, rs[i..], f)| == |Multipart(content, rs, f)|
    {
      var r := rs[i];
      assert rs[i..][1..] == rs[i + 1..] && rs[i..][0] == r;
      assert |Slice(content, r.start, r.end)| == Length(r);
      length := length + |f.header(r)|;
      length := length + Length(r) + 2;
      i := i + 1;
    }
    length := length + |f.closing|;
  }

  /** Pass stored chunks on and count them. */
  method Relay(sent: seq<Blob>, stored: seq<Blob>, count: nat) returns (chunks: seq<Blob>, bytesSent: nat)
    ensures Flatten(chunks) == Flatten(sent) + Flatten(stored) && bytesSent == count + |Flatten(stored)|
  {
    chunks, bytesSent := sent, count;
    var i := 0;
    while i < |stored|
      invariant 0 <= i <= |stored|
      invariant Flatten(chunks) == Flatten(sent) + Flatten(stored[..i]) && bytesSent == count + |Flatten(stored[..i])|
    {
      FlattenStep(stored, i);
      FlattenSnoc(chunks, stored[i]);
      bytesSent := bytesSent + |stored[i]|;
      chunks := chunks + [stored[i]];
      i := i + 1;
    }
    assert stored[..i] == stored;
  }

  /** One part: header, the stored bytes of the range, line end. */
  method SendPart(content: Blob, r: ByteRange, f: Framing, blockSize: nat, sent: seq<Blob>, count: nat)
    returns (chunks: seq<Blob>, bytesSent: nat)
    requires blockSize > 0 && 0 <= r.start <= r.end < |content|
    ensures Flatten(chunks) == Flatten(sent) + (f.header(r) + Slice(content, r.start, r.end) + CRLF)
    ensures bytesSent == count + Length(r)
  {
    var header := sent + [f.header(r)];
    FlattenSnoc(sent, f.header(r));
    var stored := StreamPath(content, Some(r), blockSize);
    chunks, bytesSent := Relay(header, stored.value, count);
    FlattenSnoc(chunks, CRLF);
    chunks := chunks + [CRLF];
  }

  lemma MultipartUnfolds(content: Blob, rs: seq<ByteRange>, f: Framing, i: nat, sent: Blob)
    requires Within(rs, |content|) && i < |rs|
    ensures sent + Multipart(content, rs[i..], f) ==
            sent + (f.header(rs[i]) + Slice(content, rs[i].start, rs[i].end) + CRLF)
            + Multipart(content, rs[i + 1..], f)
    ensures Total(rs[i..]) == Length(rs[i]) + Total(rs[i + 1..])
  {
    assert rs[i..][1..] == rs[i + 1..];
  }

  /** All parts in order, then the closing delimiter. */
  method SendParts(content: Blob, rs: seq<ByteRange>, f: Framing, blockSize: nat)
    returns (chunks: seq<Blob>, bytesSent: nat)
    requires blockSize > 0 && Within(rs, |content|)
    ensures Flatten(chunks) == Multipart(content, rs, f) && bytesSent == Total(rs)
  {
    chunks, bytesSent := [], 0;
    var i := 0;
    while i < |rs|
      invariant 0 <= i <= |rs|
      invariant Flatten(chunks) + Multipart(content, rs[i..], f) == Multipart(content, rs, f)
      invariant bytesSent + Total(rs[i..]) == Total(rs)
    {
      MultipartUnfolds(content, rs, f, i, Flatten(chunks));
      chunks, bytesSent := SendPart(content, rs[i], f, blockSize, chunks, bytesSent);
      i := i + 1;
    }
    FlattenSnoc(chunks, f.closing);
    chunks := chunks + [f.closing];
  }

  /**
   What arrives is the whole file, the one range, or the multipart body, however the reads
   were cut; `bytesSent` counts the file's bytes and not the framing.
   */
  method StreamDownload(content: Blob, rs: seq<ByteRange>, f: Framing, blockSize: nat)
    returns (chunks: seq<Blob>, bytesSent: nat)
    requires blockSize > 0 && Within(rs, |content|)
    ensures Flatten(chunks) == Body(content, rs, f)
    ensures bytesSent == if rs == [] then |content| else Total(rs)
  {
    if rs == [] {
      var stored := StreamPath(content, None, blockSize);
      chunks, bytesSent := Relay([], stored.value, 0);
    } else if |rs| == 1 {
      var stored := StreamPath(content, Some(rs[0]), blockSize);
      chunks, bytesSent := Relay([], stored.value, 0);
      assert Total(rs[1..]) == 0;
    } else {
      chunks, bytesSent := SendParts(content, rs, f, blockSize);
    }
  }

  // ---------------------------------------------------------------------------------
  // What the body contains
  // ---------------------------------------------------------------------------------

  /** Where the bytes of the i-th range begin inside the multipart body. */
  function PartOffset(rs: seq<ByteRange>, f: Framing, i: nat): int
    requires i < |rs|
  {
    if i == 0 then |f.header(rs[0])|
    else |f.header(rs[0])| + Length(rs[0]) + 2 + PartOffset(rs[1..], f, i - 1)
  }

  /** The body has this part at `at`: its bytes there, its header right before them. */
  predicate PartAt(body: Blob, at: int, header: Blob, bytes: Blob) {
    && |header| <= at && at + |bytes| <= |body|
    && body[at - |header|..at] == header
    && body[at..at + |bytes|] == bytes
  }

  lemma PartInFront(header: Blob, bytes: Blob, rest: Blob)
    ensures PartAt(header + bytes + CRLF + rest, |header|, header, bytes)
  {
    assert (header + bytes + CRLF + rest)[|header|..|header| + |bytes|] == bytes;
  }

  lemma PartShifted(head: Blob, body: Blob, at: int, header: Blob, bytes: Blob)
    requires PartAt(body, at, header, bytes)
    ensures PartAt(head + body, |head| + at, header, bytes)
  {
    assert (head + body)[|head| + at..|head| + at + |bytes|] == body[at..at + |bytes|];
    assert (head + body)[|head| + at - |header|..|head| + at] == body[at - |header|..at];
  }

  /** Each part body is exactly the file from start to end, directly behind that range's own header. */
  lemma {:induction false} PartIsFileRange(content: Blob, rs: seq<ByteRange>, f: Framing, i: nat)
    requires Within(rs, |content|) && i < |rs|
    ensures PartAt(Multipart(content, rs, f), PartOffset(rs, f, i), f.header(rs[i]),
                   Slice(content, rs[i].start, rs[i].end))
  {
    var header, bytes := f.header(rs[0]), Slice(content, rs[0].start, rs[0].end);
    var rest := Multipart(content, rs[1..], f);
    if i == 0 {
      PartInFront(header, bytes, rest);
    } else {
      PartIsFileRange(content, rs[1..], f, i - 1);
      assert |bytes| == Length(rs[0]);
      PartShifted(header + bytes + CRLF, rest, PartOffset(rs[1..], f, i - 1), f.header(rs[i]),
                  Slice(content, rs[i].start, rs[i].end));
    }
  }

  /** The parts a response to these ranges has to consist of. */
  function PartsOf(content: Blob, rs: seq<ByteRange>, mime: Blob): seq<Part>
    requires Within(rs, |content|)
  {
    seq(|rs|, i requires 0 <= i < |rs| =>
      Part(mime, rs[i].start, rs[i].end, |content|, content[rs[i].start..rs[i].end + 1]))
  }

  lemma HeaderLines(r: ByteRange, boundary: Blob, mime: Blob, total: nat, range: Blob)
    requires 0 <= r.start <= r.end
    requires range == Text(Show(r.start)) + [45] + (Text(Show(r.end)) + [47] + Text(Show(total)))
    ensures PartHeader(r, boundary, mime, total)
            == Text("--") + boundary + CRLF + (Text("Content-Type: ") + mime + CRLF
               + (Text("Content-Range: bytes ") + range + CRLF + ([] + CRLF)))
  {
    assert Text("-") == [45] && Text("/") == [47];
    Regroup(Text("--") + boundary + CRLF, Text("Content-Type: "), mime, Text("Content-Range: bytes "),
            Text(Show(r.start)), Text(Show(r.end)), Text(Show(total)));
  }

  lemma Regroup(head: Blob, kind: Blob, mime: Blob, name: Blob, start: Blob, end: Blob, total: Blob)
    ensures head + kind + mime + CRLF + name + start + [45] + end + [47] + total + CRLF + CRLF
            == head + (kind + mime + CRLF + (name + (start + [45] + (end + [47] + total)) + CRLF + ([] + CRLF)))
  {
    RegroupRange(name, start, end, total);
    var lines := kind + mime + CRLF + (name + (start + [45] + (end + [47] + total)) + CRLF + ([] + CRLF));
    assert name + start + [45] + end + [47] + total + CRLF + CRLF
           == name + (start + [45] + (end + [47] + total)) + CRLF + ([] + CRLF);
    assert head + lines == head + kind + mime + CRLF
                           + (name + (start + [45] + (end + [47] + total)) + CRLF + ([] + CRLF));
  }

  lemma RegroupRange(name: Blob, start: Blob, end: Blob, total: Blob)
    ensures name + start + [45] + end + [47] + total == name + (start + [45] + (end + [47] + total))
  {
  }

  /** The first part of a multipart body reads back, and leaves the rest of the body. */
  lemma FirstPartReads(content: Blob, r: ByteRange, boundary: Blob, mime: Blob, rest: Blob)
    requires 0 <= r.start <= r.end < |content| && 13 !in boundary && 13 !in mime
    ensures var b := PartHeader(r, boundary, mime, |content|) + Slice(content, r.start, r.end) + CRLF + rest;
            && ReadPart(b, boundary)
               == Some((Part(mime, r.start, r.end, |content|, content[r.start..r.end + 1]), rest))
            && b != Closing(boundary)
  {
    var range := Text(Show(r.start)) + [45] + (Text(Show(r.end)) + [47] + Text(Show(|content|)));
    HeaderLines(r, boundary, mime, |content|, range);
    RangeReads(r.start, r.end, |content|);
    PartReads(PartHeader(r, boundary, mime, |content|), boundary, Text("Content-Type: "), mime,
              Text("Content-Range: bytes "), range, r.start, r.end, |content|, Slice(content, r.start, r.end), rest);
  }

  /**
   A client that takes the body apart finds the ranges in order, each with its own first and last
   position, the size of the file, and exactly those bytes of it, and nothing else.
   */
  lemma {:induction false} BodyReadsBack(content: Blob, rs: seq<ByteRange>, boundary: Blob, mime: Blob)
    requires Within(rs, |content|) && 13 !in boundary && 13 !in mime
    ensures ReadParts(Multipart(content, rs, HttpFraming(boundary, mime, |content|)), boundary)
            == Some(PartsOf(content, rs, mime))
    decreases |rs|
  {
    var f := HttpFraming(boundary, mime, |content|);
    if rs == [] {
      ClosingEnds(boundary, mime, |content|);
      assert PartsOf(content, rs, mime) == [];
    } else {
      FirstPartReads(content, rs[0], boundary, mime, Multipart(content, rs[1..], f));
      BodyReadsBack(content, rs[1..], boundary, mime);
      PartsUnfold(content, rs, mime);
    }
  }

  lemma ClosingEnds(boundary: Blob, mime: Blob, total: nat)
    ensures HttpFraming(boundary, mime, total).closing == Closing(boundary)
  {
    assert Text("--\r\n") == Text("--") + CRLF;
  }

  lemma PartsUnfold(content: Blob, rs: seq<ByteRange>, mime: Blob)
    requires Within(rs, |content|) && rs != []
    ensures PartsOf(content, rs, mime)
            == [Part(mime, rs[0].start, rs[0].end, |content|, content[rs[0].start..rs[0].end + 1])]
               + PartsOf(content, rs[1..], mime)
  {
  }

  /** Without a range the file itself is sent, for one range just its bytes. */
  lemma ShortBodies(content: Blob, r: ByteRange, f: Framing)
    requires 0 <= r.start <= r.end < |content|
    ensures Body(content, [], f) == content
    ensures Body(content, [r], f) == content[r.start..r.end + 1]
  {
  }

  function Selected(rs: seq<ByteRange>, size: nat): set<int> {
    set b | 0 <= b < size && Covers(rs, b)
  }

  function Interval(low: int, high: int): set<int>
    decreases high - low
  {
    if low >= high then {} else Interval(low, high - 1) + {high - 1}
  }

  lemma {:induction false} IntervalCount(low: int, high: int)
    requires low <= high
    ensures |Interval(low, high)| == high - low
    ensures forall b :: b in Interval(low, high) <==> low <= b < high
    decreases high - low
  {
    if low < high {
      IntervalCount(low, high - 1);
    }
  }

  lemma HeadAndRest(rs: seq<ByteRange>, size: nat)
    requires Canonical(rs, size) && rs != []
    ensures var head := Interval(rs[0].start, rs[0].end + 1);
            Selected(rs, size) == head + Selected(rs[1..], size) && head !! Selected(rs[1..], size)
  {
    var head := Interval(rs[0].start, rs[0].end + 1);
    IntervalCount(rs[0].start, rs[0].end + 1);
    forall b: int ensures b in Selected(rs, size) <==> b in head || b in Selected(rs[1..], size) {
      TailCovers(rs, size, b);
      if b in head { HeadCovers(rs, b); }
      if Covers(rs, b) && b <= rs[0].end {
        var i :| 0 <= i < |rs| && In(rs[i], b);
      }
    }
    forall b | b in head ensures b !in Selected(rs[1..], size) {
      TailCovers(rs, size, b);
    }
  }

  /** No byte is sent twice: the ranges add up to the number of distinct selected bytes. */
  lemma {:induction false} EachByteOnce(rs: seq<ByteRange>, size: nat)
    requires Canonical(rs, size)
    ensures Total(rs) == |Selected(rs, size)|
  {
    if rs == [] {
      assert Selected(rs, size) == {};
    } else {
      EachByteOnce(rs[1..], size);
      IntervalCount(rs[0].start, rs[0].end + 1);
      HeadAndRest(rs, size);
    }
  }

  /**
   The whole response: the body is the one for the canonical list of the bytes the header
   asked for, its announced length is the length sent, each file byte is sent once, and an
   unusable header sends nothing.
   */
  method Respond(header: Header, content: Blob, boundary: Blob, mime: Blob, blockSize: nat)
    returns (announced: nat, chunks: Result<seq<Blob>, RangeError>, bytesSent: nat, rs: seq<ByteRange>)
    requires blockSize > 0
    ensures chunks.Err? <==> header.Members? && Refused(header.members, |content|)
    ensures chunks.Ok? ==> announced == |Flatten(chunks.value)|
    ensures Canonical(rs, |content|)
    ensures chunks.Ok? ==> Flatten(chunks.value) == Body(content, rs, HttpFraming(boundary, mime, |content|))
    ensures chunks.Ok? && |rs| > 1 && 13 !in boundary && 13 !in mime ==>
              ReadParts(Flatten(chunks.value), boundary) == Some(PartsOf(content, rs, mime))
    ensures chunks.Ok? && |rs| == 1 ==> Flatten(chunks.value) == content[rs[0].start..rs[0].end + 1]
    ensures chunks.Ok? && header.Ignored? ==> rs == [] && Flatten(chunks.value) == content && bytesSent == |content|
    ensures chunks.Ok? && header.Members? ==>
              rs != [] && forall b :: Covers(rs, b) <==> Wanted(header.members, |content|, b)
    ensures chunks.Ok? && header.Members? ==>
              bytesSent == |set b | 0 <= b < |content| && Wanted(header.members, |content|, b)|
  {
    announced, bytesSent, rs := 0, 0, [];
    var ranges := ParseRanges(header, |content|);
    if ranges.Err? {
      return 0, Err(RangeError), 0, [];
    }
    rs := ranges.value;
    var f := HttpFraming(boundary, mime, |content|);
    if |rs| == 1 {
      announced := Length(rs[0]);
    } else if |rs| > 1 {
      announced := MultipartLength(rs, f, content);
    } else {
      announced := |content|;
    }
    var sent;
    sent, bytesSent := StreamDownload(content, rs, f, blockSize);
    if header.Members? {
      EachByteOnce(rs, |content|);
      assert Selected(rs, |content|) == set b | 0 <= b < |content| && Wanted(header.members, |content|, b);
    }
    if |rs| > 1 && 13 !in boundary && 13 !in mime {
      BodyReadsBack(content, rs, boundary, mime);
    }
    chunks := Ok(sent);
  }
}
