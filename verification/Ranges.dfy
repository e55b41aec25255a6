/**
 Byte-range requests: which ranges a header selects, and what a download sends for them.

 The header is modelled after tokenization: a member is the text before and after its
 first hyphen, each part empty, a number or something `int` rejects.
 */
module Ranges {
  import opened Outcomes
  import opened LocalStorage

  const MAX_RANGES: nat := 16

  datatype Token = Empty | Number(value: int) | Garbage

  datatype Member = Member(separator: bool, first: Token, last: Token)

  /** No header or another range unit, or the members after `bytes=`. */
  datatype Header = Ignored | Members(members: seq<Member>)

  datatype RangeError = RangeError

  function Length(r: ByteRange): int {
    r.end - r.start + 1
  }

  predicate In(r: ByteRange, b: int) {
    r.start <= b <= r.end
  }

  // ---------------------------------------------------------------------------------
  // What a header asks for
  // ---------------------------------------------------------------------------------

  /** Section 14.1.2 of RFC 9110: the bytes of a representation of this size that a member selects. */
  predicate Wants(m: Member, size: nat, b: int) {
    && m.separator && 0 <= b < size
    && match (m.first, m.last)
       case (Number(f), Number(l)) => 0 <= f <= b <= l
       case (Number(f), Empty) => 0 <= f <= b
       case (Empty, Number(n)) => size - n <= b
       case _ => false
  }

  predicate Satisfiable(m: Member, size: nat) {
    exists b | 0 <= b < size :: Wants(m, size, b)
  }

  /** No hyphen, text that is no number, or nothing on either side. */
  predicate Unreadable(m: Member) {
    !m.separator || m.first.Garbage? || m.last.Garbage? || (m.first.Empty? && m.last.Empty?)
  }

  /** Not a range by section 14.1.1 of RFC 9110: unreadable, a negative number, or a last position below the first. */
  predicate Invalid(m: Member) {
    || Unreadable(m)
    || (m.first.Number? && m.first.value < 0) || (m.last.Number? && m.last.value < 0)
    || (m.first.Number? && m.last.Number? && m.last.value < m.first.value)
  }

  /** A first position outside the representation: the rest of the member is never read. */
  predicate StartsOutside(m: Member, size: nat) {
    m.separator && m.first.Number? && !(0 <= m.first.value < size)
  }

  predicate Rejected(m: Member, size: nat) {
    Unreadable(m) && !StartsOutside(m, size)
  }

  predicate Refused(members: seq<Member>, size: nat) {
    || members == [] || |members| > MAX_RANGES || size == 0
    || (exists i | 0 <= i < |members| :: Rejected(members[i], size))
    || (forall i | 0 <= i < |members| :: !Satisfiable(members[i], size))
  }

  // ---------------------------------------------------------------------------------
  // Lists of ranges
  // ---------------------------------------------------------------------------------

  predicate Covers(rs: seq<ByteRange>, b: int) {
    exists i | 0 <= i < |rs| :: In(rs[i], b)
  }

  predicate Within(rs: seq<ByteRange>, size: nat) {
    forall i | 0 <= i < |rs| :: 0 <= rs[i].start <= rs[i].end < size
  }

  /** Sorted, inside the representation, and neighbours at least one byte apart. */
  predicate Canonical(rs: seq<ByteRange>, size: nat) {
    Within(rs, size) && forall i, j | 0 <= i < j < |rs| :: rs[i].end + 1 < rs[j].start
  }

  /** There is only one canonical list for a set of bytes. */
  lemma {:induction false} CanonicalUnique(a: seq<ByteRange>, b: seq<ByteRange>, size: nat)
    requires Canonical(a, size) && Canonical(b, size) && forall x :: Covers(a, x) <==> Covers(b, x)
    ensures a == b
    decreases |a|
  {
    if a == [] {
      if b != [] { assert In(b[0], b[0].start) && Covers(b, b[0].start); }
    } else {
      assert In(a[0], a[0].start) && Covers(a, a[0].start);
      SameHead(a, b, size);
      forall x ensures Covers(a[1..], x) <==> Covers(b[1..], x) {
        TailCovers(a, size, x);
        TailCovers(b, size, x);
      }
      CanonicalUnique(a[1..], b[1..], size);
    }
  }

  lemma SameHead(a: seq<ByteRange>, b: seq<ByteRange>, size: nat)
    requires Canonical(a, size) && Canonical(b, size) && forall x :: Covers(a, x) <==> Covers(b, x)
    requires a != [] && b != []
    ensures a[0] == b[0]
  {
    assert In(a[0], a[0].start) && Covers(a, a[0].start);
    assert In(b[0], b[0].start) && Covers(b, b[0].start);
    HeadEnd(a, b, size);
    HeadEnd(b, a, size);
  }

  lemma HeadCovers(a: seq<ByteRange>, x: int)
    requires a != [] && In(a[0], x)
    ensures Covers(a, x)
  {
  }

  lemma HeadEnd(a: seq<ByteRange>, b: seq<ByteRange>, size: nat)
    requires Canonical(a, size) && Canonical(b, size) && a != [] && b != [] && a[0].start == b[0].start
    requires forall x :: Covers(a, x) <==> Covers(b, x)
    ensures a[0].end <= b[0].end
  {
    HeadCovers(a, if b[0].end < a[0].end then b[0].end + 1 else a[0].start);
  }

  lemma TailCovers(a: seq<ByteRange>, size: nat, x: int)
    requires Canonical(a, size) && a != []
    ensures Covers(a[1..], x) <==> Covers(a, x) && x > a[0].end
  {
    if Covers(a[1..], x) {
      var i :| 0 <= i < |a| - 1 && In(a[1..][i], x);
      assert In(a[i + 1], x);
    }
    if Covers(a, x) && x > a[0].end {
      var i :| 0 <= i < |a| && In(a[i], x);
      assert In(a[1..][i - 1], x);
    }
  }

  // ---------------------------------------------------------------------------------
  // Coalescing
  // ---------------------------------------------------------------------------------

  predicate Before(a: ByteRange, b: ByteRange) {
    a.start < b.start || (a.start == b.start && a.end <= b.end)
  }

  predicate Ordered(rs: seq<ByteRange>) {
    forall i, j | 0 <= i < j < |rs| :: Before(rs[i], rs[j])
  }

  function Inserted(rs: seq<ByteRange>, r: ByteRange): seq<ByteRange> {
    if rs == [] then [r] else if Before(r, rs[0]) then [r] + rs else [rs[0]] + Inserted(rs[1..], r)
  }

  function Sorted(rs: seq<ByteRange>): seq<ByteRange> {
    if rs == [] then [] else Inserted(Sorted(rs[1..]), rs[0])
  }

  lemma {:induction false} InsertedOrdered(rs: seq<ByteRange>, r: ByteRange)
    requires Ordered(rs)
    ensures Ordered(Inserted(rs, r)) && |Inserted(rs, r)| == |rs| + 1
    ensures forall x :: x in Inserted(rs, r) <==> x in rs || x == r
  {
    if rs == [] || Before(r, rs[0]) {
    } else {
      InsertedOrdered(rs[1..], r);
      var rest := Inserted(rs[1..], r);
      forall j | 0 <= j < |rest| ensures Before(rs[0], rest[j]) {
        assert rest[j] in rs[1..] || rest[j] == r;
      }
    }
  }

  lemma {:induction false} SortedOrdered(rs: seq<ByteRange>)
    ensures Ordered(Sorted(rs)) && |Sorted(rs)| == |rs| && forall x :: x in Sorted(rs) <==> x in rs
  {
    if rs != [] {
      SortedOrdered(rs[1..]);
      InsertedOrdered(Sorted(rs[1..]), rs[0]);
    }
  }

  lemma SameElements(a: seq<ByteRange>, b: seq<ByteRange>, size: nat)
    requires Within(a, size) && forall x :: x in a <==> x in b
    ensures Within(b, size) && forall x :: Covers(a, x) <==> Covers(b, x)
  {
    forall i | 0 <= i < |b| ensures 0 <= b[i].start <= b[i].end < size {
      assert b[i] in a;
    }
    forall x ensures Covers(a, x) <==> Covers(b, x) {
      if Covers(a, x) {
        var i :| 0 <= i < |a| && In(a[i], x);
        assert a[i] in b;
      }
      if Covers(b, x) {
        var i :| 0 <= i < |b| && In(b[i], x);
        assert b[i] in a;
      }
    }
  }

  lemma CoversSnoc(rs: seq<ByteRange>, r: ByteRange, x: int)
    ensures Covers(rs + [r], x) <==> Covers(rs, x) || In(r, x)
  {
    if Covers(rs, x) {
      var i :| 0 <= i < |rs| && In(rs[i], x);
      assert In((rs + [r])[i], x);
    }
    if In(r, x) {
      assert In((rs + [r])[|rs|], x);
    }
  }

  function Widened(last: ByteRange, r: ByteRange): ByteRange {
    ByteRange(last.start, if last.end < r.end then r.end else last.end)
  }

  /** The merged list so far stands for the ranges `done`, and what comes next starts no earlier. */
  ghost predicate Stands(merged: seq<ByteRange>, done: seq<ByteRange>, size: nat) {
    && Canonical(merged, size)
    && (forall x :: Covers(merged, x) <==> Covers(done, x))
    && (done == [] <==> merged == [])
    && (done != [] ==> merged[|merged| - 1].start <= done[|done| - 1].start)
  }

  /** Absorbing a range that starts in or right after the last one. */
  lemma WidenStands(merged: seq<ByteRange>, done: seq<ByteRange>, r: ByteRange, size: nat)
    requires Stands(merged, done, size) && merged != [] && 0 <= r.start <= r.end < size
    requires merged[|merged| - 1].start <= r.start <= merged[|merged| - 1].end + 1
    ensures Stands(merged[..|merged| - 1] + [Widened(merged[|merged| - 1], r)], done + [r], size)
  {
    var front, last := merged[..|merged| - 1], merged[|merged| - 1];
    forall x ensures Covers(front + [Widened(last, r)], x) <==> Covers(done + [r], x) {
      CoversSnoc(front, Widened(last, r), x);
      CoversSnoc(front, last, x);
      assert front + [last] == merged;
      CoversSnoc(done, r, x);
    }
  }

  lemma AppendStands(merged: seq<ByteRange>, done: seq<ByteRange>, r: ByteRange, size: nat)
    requires Stands(merged, done, size) && 0 <= r.start <= r.end < size
    requires merged != [] ==> merged[|merged| - 1].end + 1 < r.start
    ensures Stands(merged + [r], done + [r], size)
  {
    forall x ensures Covers(merged + [r], x) <==> Covers(done + [r], x) {
      CoversSnoc(merged, r, x);
      CoversSnoc(done, r, x);
    }
    forall i, j | 0 <= i < j < |merged + [r]| ensures (merged + [r])[i].end + 1 < (merged + [r])[j].start {
      if j == |merged| && i < |merged| - 1 {
        assert merged[i].end + 1 < merged[|merged| - 1].start;
      }
    }
  }

  method CoalesceRanges(ranges: seq<ByteRange>, ghost size: nat) returns (merged: seq<ByteRange>)
    requires Within(ranges, size)
    ensures Canonical(merged, size)
    ensures forall x :: Covers(merged, x) <==> Covers(ranges, x)
    ensures ranges != [] ==> merged != []
  {
    var sorted := Sorted(ranges);
    SortedOrdered(ranges);
    SameElements(ranges, sorted, size);
    merged := [];
    var i := 0;
    while i < |sorted|
      invariant 0 <= i <= |sorted|
      invariant Stands(merged, sorted[..i], size)
    {
      var current := sorted[i];
      assert sorted[..i + 1] == sorted[..i] + [current];
      assert i > 0 ==> Before(sorted[i - 1], current) && sorted[..i][i - 1] == sorted[i - 1];
      if merged != [] && current.start <= merged[|merged| - 1].end + 1 {
        WidenStands(merged, sorted[..i], current, size);
        merged := merged[..|merged| - 1] + [Widened(merged[|merged| - 1], current)];
      } else {
        AppendStands(merged, sorted[..i], current, size);
        merged := merged + [current];
      }
      i := i + 1;
    }
    assert sorted[..i] == sorted;
  }

  // ---------------------------------------------------------------------------------
  // Parsing
  // ---------------------------------------------------------------------------------

  predicate Wanted(members: seq<Member>, size: nat, b: int) {
    exists i | 0 <= i < |members| :: Wants(members[i], size, b)
  }

  /** One member: its range, nothing when it selects no byte, or a failure. */
  method ResolveMember(m: Member, size: nat) returns (r: Result<Option<ByteRange>, RangeError>)
    requires size > 0
    ensures r.Err? <==> Rejected(m, size)
    ensures r.Ok? ==> (r.value.Some? <==> Satisfiable(m, size))
    ensures r.Ok? && r.value.Some? ==>
              Within([r.value.value], size) && forall b :: In(r.value.value, b) <==> Wants(m, size, b)
  {
    if !m.separator || (m.first.Empty? && m.last.Empty?) {
      return Err(RangeError);
    }
    var start, end: int;
    if m.first.Empty? {
      if m.last.Garbage? {
        return Err(RangeError);
      }
      var suffix := m.last.value;
      if suffix <= 0 {
        return Ok(None);
      }
      start := if size - suffix < 0 then 0 else size - suffix;
      end := size - 1;
    } else {
      if m.first.Garbage? {
        return Err(RangeError);
      }
      start := m.first.value;
      if start < 0 || start >= size {
        return Ok(None);
      }
      if m.last.Garbage? {
        return Err(RangeError);
      }
      end := if m.last.Empty? || size - 1 < m.last.value then size - 1 else m.last.value;
      if end < start {
        return Ok(None);
      }
    }
    assert Wants(m, size, start);
    r := Ok(Some(ByteRange(start, end)));
  }

  /**
   Exactly the bytes the members select, as the canonical list; a bytes header fails just
   when some member is rejected, there are none or too many, the representation is empty,
   or nothing is satisfiable.
   */
  method ParseRanges(header: Header, size: nat) returns (r: Result<seq<ByteRange>, RangeError>)
    ensures header.Ignored? ==> r == Ok([])
    ensures header.Members? ==> (r.Err? <==> Refused(header.members, size))
    ensures header.Members? && r.Ok? ==>
              r.value != [] && Canonical(r.value, size)
              && forall b :: Covers(r.value, b) <==> Wanted(header.members, size, b)
  {
    if header.Ignored? {
      return Ok([]);
    }
    var members := header.members;
    if members == [] || |members| > MAX_RANGES || size == 0 {
      return Err(RangeError);
    }
    var resolved: seq<ByteRange> := [];
    var i := 0;
    while i < |members|
      invariant 0 <= i <= |members| && Within(resolved, size)
      invariant forall j | 0 <= j < i :: !Rejected(members[j], size)
      invariant resolved == [] <==> forall j | 0 <= j < i :: !Satisfiable(members[j], size)
      invariant forall b :: Covers(resolved, b) <==> Wanted(members[..i], size, b)
    {
      var one := ResolveMember(members[i], size);
      if one.Err? {
        return Err(RangeError);
      }
      assert members[..i + 1] == members[..i] + [members[i]];
      ghost var before := resolved;
      if one.value.Some? {
        resolved := resolved + [one.value.value];
      }
      forall b ensures Covers(resolved, b) <==> Wanted(members[..i + 1], size, b) {
        WantedSnoc(members[..i], members[i], size, b);
        if one.value.Some? { CoversSnoc(before, one.value.value, b); }
      }
      i := i + 1;
    }
    assert members[..i] == members;
    if resolved == [] {
      return Err(RangeError);
    }
    var merged := CoalesceRanges(resolved, size);
    r := Ok(merged);
  }

  lemma WantedSnoc(members: seq<Member>, m: Member, size: nat, b: int)
    ensures Wanted(members + [m], size, b) <==> Wanted(members, size, b) || Wants(m, size, b)
    ensures Wants(m, size, b) ==> Satisfiable(m, size)
  {
    if Wanted(members, size, b) {
      var i :| 0 <= i < |members| && Wants(members[i], size, b);
      assert Wants((members + [m])[i], size, b);
    }
    if Wants(m, size, b) {
      assert Wants((members + [m])[|members|], size, b);
    }
  }

  /** Invalid because the numbers do not fit together: a negative suffix, or a last position below the first. */
  predicate Inverted(m: Member) {
    m.separator && m.last.Number?
    && ((m.first.Empty? && m.last.value < 0) || (m.first.Number? && m.last.value < m.first.value))
  }

  /**
   The invalid members that are skipped instead of rejected: precisely the inverted ones, and
   those that start outside the representation with a negative first position or with
   unreadable text after it. They select nothing.
   */
  lemma OverlookedIff(m: Member, size: nat)
    ensures Invalid(m) && !Rejected(m, size) <==>
            Inverted(m) || (StartsOutside(m, size) && (m.first.value < 0 || m.last.Garbage?))
    ensures Invalid(m) ==> !Satisfiable(m, size)
    ensures Rejected(m, size) ==> Invalid(m)
  {
  }

  /** A member may be repeated up to sixteen times, if it selects anything at all. */
  lemma CopiesAcceptedIff(m: Member, n: nat, size: nat)
    ensures Refused(seq(n, i => m), size) <==> n == 0 || n > 16 || !Satisfiable(m, size)
  {
    if n > 0 && Satisfiable(m, size) {
      assert seq(n, i => m)[0] == m;
    }
  }

  /**
   Next to a satisfiable member, each kind leaves the request accepted: `500-x`, `5-3` and `--5`
   after `0-4` of 100 bytes.
   */
  lemma InvalidMembersAccepted() returns (outside: Member, inverted: Member, negative: Member)
    ensures outside == Member(true, Number(500), Garbage) && inverted == Member(true, Number(5), Number(3))
    ensures negative == Member(true, Empty, Number(-5))
    ensures forall m | m in {outside, inverted, negative} ::
              Invalid(m) && !Refused([Member(true, Number(0), Number(4)), m], 100)
  {
    outside, inverted := Member(true, Number(500), Garbage), Member(true, Number(5), Number(3));
    negative := Member(true, Empty, Number(-5));
    var good := Member(true, Number(0), Number(4));
    assert Wants(good, 100, 0);
    forall m | m in {outside, inverted, negative} ensures Invalid(m) && !Refused([good, m], 100) {
      assert [good, m][0] == good && Satisfiable(good, 100);
    }
  }
}
