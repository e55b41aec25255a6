/**
 How a client takes a multipart/byteranges body apart (section 14.6 of RFC 9110, section 5.1
 of RFC 2046): line by line, from the bytes alone and the boundary it was told.
 */
module MultipartReader {
  import opened Outcomes
  import opened Bytes
  import opened Decimals

  /** One part as its reader sees it: what its header announces, and the bytes behind it. */
  datatype Part = Part(mime: Blob, start: int, end: int, total: int, bytes: Blob)

  /** The bytes up to the first line end, and those behind it. */
  function Line(b: Blob): (r: Option<(Blob, Blob)>)
    ensures r.Some? ==> |r.value.1| < |b|
  {
    if |b| < 2 then None
    else if b[0] == 13 && b[1] == 10 then Some(([], b[2..]))
    else
      var (line, rest) :- Line(b[1..]);
      Some(([b[0]] + line, rest))
  }

  /** The bytes up to the first `c`, and those behind it. */
  function Cut(b: Blob, c: Byte): Option<(Blob, Blob)> {
    if b == [] then None
    else if b[0] == c then Some(([], b[1..]))
    else
      var (before, rest) :- Cut(b[1..], c);
      Some(([b[0]] + before, rest))
  }

  function Behind(b: Blob, prefix: Blob): Option<Blob> {
    if prefix <= b then Some(b[|prefix|..]) else None
  }

  function Chars(b: Blob): string {
    seq(|b|, i requires 0 <= i < |b| => b[i] as int as char)
  }

  /** `start-end/total` */
  function ReadRange(range: Blob): Option<(int, int, int)> {
    var (start, rest) :- Cut(range, 45);
    var (end, total) :- Cut(rest, 47);
    var first :- Parse(Chars(start));
    var last :- Parse(Chars(end));
    var size :- Parse(Chars(total));
    Some((first, last, size))
  }

  /** Delimiter, two header lines, an empty line, as many bytes as announced, and a line end. */
  function ReadPart(b: Blob, boundary: Blob): (r: Option<(Part, Blob)>)
    ensures r.Some? ==> |r.value.1| < |b|
  {
    var (delimiter, b1) :- Line(b);
    if delimiter != Text("--") + boundary then None
    else
      var (contentType, b2) :- Line(b1);
      var (contentRange, b3) :- Line(b2);
      var (empty, b4) :- Line(b3);
      var mime :- Behind(contentType, Text("Content-Type: "));
      var range :- Behind(contentRange, Text("Content-Range: bytes "));
      var (start, end, total) :- ReadRange(range);
      if empty != [] || end < start || end - start + 1 > |b4| then None
      else
        var rest :- Behind(b4[end - start + 1..], CRLF);
        Some((Part(mime, start, end, total, b4[..end - start + 1]), rest))
  }

  function Closing(boundary: Blob): Blob {
    Text("--") + boundary + Text("--") + CRLF
  }

  /** All parts up to the closing delimiter, with nothing behind it. */
  function ReadParts(b: Blob, boundary: Blob): Option<seq<Part>>
    decreases |b|
  {
    if b == Closing(boundary) then Some([])
    else
      var (part, rest) :- ReadPart(b, boundary);
      var others :- ReadParts(rest, boundary);
      Some([part] + others)
  }

  // ---------------------------------------------------------------------------------
  // Reading what was written
  // ---------------------------------------------------------------------------------

  lemma {:induction false} LineReads(line: Blob, rest: Blob)
    requires 13 !in line
    ensures Line(line + CRLF + rest) == Some((line, rest))
  {
    var b := line + CRLF + rest;
    if line == [] {
      assert b[2..] == rest;
    } else {
      assert b[1..] == line[1..] + CRLF + rest;
      LineReads(line[1..], rest);
      assert [line[0]] + line[1..] == line;
    }
  }

  lemma {:induction false} CutReads(before: Blob, c: Byte, rest: Blob)
    requires c !in before
    ensures Cut(before + [c] + rest, c) == Some((before, rest))
  {
    var b := before + [c] + rest;
    if before == [] {
      assert b[1..] == rest;
    } else {
      assert b[1..] == before[1..] + [c] + rest;
      CutReads(before[1..], c, rest);
      assert [before[0]] + before[1..] == before;
    }
  }

  lemma BehindReads(prefix: Blob, rest: Blob)
    ensures Behind(prefix + rest, prefix) == Some(rest)
  {
    assert (prefix + rest)[|prefix|..] == rest;
  }

  /** A number on the wire reads back, and uses no byte but digits. */
  lemma NumberReads(n: nat)
    ensures Parse(Chars(Text(Show(n)))) == Some(n)
    ensures forall b | b in Text(Show(n)) :: 48 <= b <= 57
  {
    DigitsRead(n);
    ShowReads(n);
    var s := Show(n);
    assert forall i | 0 <= i < |s| :: IsDigit(s[i]);
    assert Chars(Text(s)) == s;
  }

  lemma RangeReads(start: nat, end: nat, total: nat)
    ensures var range := Text(Show(start)) + [45] + (Text(Show(end)) + [47] + Text(Show(total)));
            ReadRange(range) == Some((start, end, total)) && 13 !in range
  {
    NumberReads(start);
    NumberReads(end);
    NumberReads(total);
    var first, last, size := Text(Show(start)), Text(Show(end)), Text(Show(total));
    CutReads(first, 45, last + [47] + size);
    CutReads(last, 47, size);
  }

  lemma NotTheEnd(boundary: Blob, rest: Blob)
    ensures Text("--") + boundary + CRLF + rest != Closing(boundary)
  {
    var at := |Text("--") + boundary|;
    assert (Text("--") + boundary + CRLF + rest)[at] == 13;
    assert Closing(boundary)[at] == 45;
  }

  lemma PartLines(delimiter: Blob, kind: Blob, range: Blob, bytes: Blob, rest: Blob)
    ensures delimiter + CRLF + (kind + CRLF + (range + CRLF + ([] + CRLF))) + bytes + CRLF + rest
            == delimiter + CRLF + (kind + CRLF + (range + CRLF + ([] + CRLF + (bytes + (CRLF + rest)))))
  {
  }

  /** Three lines and an empty one, the bytes and a line end are read back as the part they announce. */
  lemma PartReads(header: Blob, boundary: Blob, typeName: Blob, mime: Blob, rangeName: Blob, range: Blob, start: int,
                  end: int, total: int, bytes: Blob, rest: Blob)
    requires typeName == Text("Content-Type: ") && rangeName == Text("Content-Range: bytes ")
    requires 13 !in boundary && 13 !in mime && 13 !in range
    requires header == Text("--") + boundary + CRLF + (typeName + mime + CRLF + (rangeName + range + CRLF
                       + ([] + CRLF)))
    requires ReadRange(range) == Some((start, end, total)) && 0 <= start <= end && |bytes| == end - start + 1
    ensures ReadPart(header + bytes + CRLF + rest, boundary) == Some((Part(mime, start, end, total, bytes), rest))
    ensures header + bytes + CRLF + rest != Closing(boundary)
  {
    var delimiter := Text("--") + boundary;
    var b4 := bytes + (CRLF + rest);
    var b3 := [] + CRLF + b4;
    var b2 := rangeName + range + CRLF + b3;
    var b1 := typeName + mime + CRLF + b2;
    NoReturns(boundary, mime, range);
    PartLines(delimiter, typeName + mime, rangeName + range, bytes, rest);
    LineReads(delimiter, b1);
    LineReads(typeName + mime, b2);
    LineReads(rangeName + range, b3);
    LineReads([], b4);
    BehindReads(typeName, mime);
    BehindReads(rangeName, range);
    BehindReads(CRLF, rest);
    assert b4[..|bytes|] == bytes && b4[|bytes|..] == CRLF + rest;
    NotTheEnd(boundary, b1);
  }

  lemma NoReturns(boundary: Blob, mime: Blob, range: Blob)
    requires 13 !in boundary && 13 !in mime && 13 !in range
    ensures 13 !in Text("--") + boundary && 13 !in Text("Content-Type: ") + mime
    ensures 13 !in Text("Content-Range: bytes ") + range
  {
  }
}
