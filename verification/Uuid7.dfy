/**
 UUID version 7 generation (sections 5.7 and 6.2 of RFC 9562): a millisecond timestamp and
 a 74-bit counter that is seeded at random and counts up within a millisecond.
 */
module Uuid7 {
  import opened Bits
  import opened Outcomes

  const TWO_12: int := 0x1000
  const TWO_48: int := 0x1_0000_0000_0000
  const TWO_62: int := 0x4000_0000_0000_0000
  const TWO_64: int := 0x1_0000_0000_0000_0000
  const TWO_74: int := 0x400_0000_0000_0000_0000
  const TWO_76: int := 0x1000_0000_0000_0000_0000
  const TWO_80: int := 0x1_0000_0000_0000_0000_0000
  const TWO_128: int := 0x1_0000_0000_0000_0000_0000_0000_0000_0000

  /** The last timestamp and counter handed out; both -1 before the first call. */
  datatype State = State(timestamp: int, random: int)

  const START := State(-1, -1)

  /** The clock is past 48 bits, or the assembled integer is past 128 bits. */
  datatype Failure = TimestampOverflow | ValueTooLarge

  /** The five fields side by side: timestamp, version, upper counter bits, variant, lower counter bits. */
  function Packed(timestamp: int, random: int): int {
    timestamp * TWO_80 + 7 * TWO_76 + (random / TWO_62) * TWO_64 + 2 * TWO_62 + random % TWO_62
  }

  /** The same fields as the generator combines them, shift by shift. */
  function Assembled(timestamp: nat, random: nat): nat {
    var a, b := ShiftRight(random, 62), And(random, TWO_62 - 1);
    Or(Or(Or(Or(ShiftLeft(timestamp, 80), ShiftLeft(7, 76)), ShiftLeft(a, 64)), ShiftLeft(2, 62)), b)
  }

  lemma Powers()
    ensures Pow2(12) == TWO_12 && Pow2(62) == TWO_62 && Pow2(64) == TWO_64
    ensures Pow2(74) == TWO_74 && Pow2(76) == TWO_76 && Pow2(80) == TWO_80
  {
    assert Pow2(2) == 4 && Pow2(4) == 16 && Pow2(12) == 4096;
    Pow2Add(12, 12);
    Pow2Add(24, 24);
    Pow2Add(48, 12);
    Pow2Add(60, 2);
    Pow2Add(62, 2);
    Pow2Add(62, 12);
    Pow2Add(64, 12);
    Pow2Add(76, 4);
  }

  lemma VersionBeside(timestamp: nat)
    ensures Or(ShiftLeft(timestamp, 80), ShiftLeft(7, 76)) == (timestamp * 16 + 7) * TWO_76
  {
    Powers();
    OrAddsAt(7, 0, 76, TWO_76);
    OrAddsAt(timestamp, 7 * TWO_76, 80, TWO_80);
  }

  lemma HighBeside(above: nat, a: nat)
    requires a < TWO_12
    ensures Or(above * TWO_76, ShiftLeft(a, 64)) == (above * TWO_12 + a) * TWO_64
  {
    Powers();
    OrAddsAt(a, 0, 64, TWO_64);
    OrAddsAt(above, a * TWO_64, 76, TWO_76);
  }

  lemma VariantBeside(above: nat)
    ensures Or(above * TWO_64, ShiftLeft(2, 62)) == (above * 4 + 2) * TWO_62
  {
    Powers();
    OrAddsAt(2, 0, 62, TWO_62);
    OrAddsAt(above, 2 * TWO_62, 64, TWO_64);
  }

  lemma LowBeside(above: nat, b: nat)
    requires b < TWO_62
    ensures Or(above * TWO_62, b) == above * TWO_62 + b
  {
    Powers();
    OrAddsAt(above, b, 62, TWO_62);
  }

  lemma FieldsBeside(timestamp: nat, a: nat, b: nat)
    requires a < TWO_12 && b < TWO_62
    ensures Or(Or(Or(Or(ShiftLeft(timestamp, 80), ShiftLeft(7, 76)), ShiftLeft(a, 64)), ShiftLeft(2, 62)), b)
            == (((timestamp * 16 + 7) * TWO_12 + a) * 4 + 2) * TWO_62 + b
  {
    VersionBeside(timestamp);
    HighBeside(timestamp * 16 + 7, a);
    VariantBeside((timestamp * 16 + 7) * TWO_12 + a);
    LowBeside(((timestamp * 16 + 7) * TWO_12 + a) * 4 + 2, b);
  }

  /** The fields do not overlap, so combining them bitwise is adding them. */
  lemma AssembledIsPacked(timestamp: nat, random: nat)
    requires random < TWO_74
    ensures Assembled(timestamp, random) == Packed(timestamp, random)
  {
    FieldsOfRandom(random);
    FieldsBeside(timestamp, random / TWO_62, random % TWO_62);
  }

  lemma FieldsOfRandom(random: nat)
    requires random < TWO_74
    ensures ShiftRight(random, 62) == random / TWO_62 < TWO_12 && And(random, TWO_62 - 1) == random % TWO_62
  {
    Powers();
    ShiftRightDivides(random, 62);
    MaskIsRemainder(random, 62);
  }

  predicate StateOk(s: State) {
    s == START || (0 <= s.timestamp <= TWO_48 && 0 <= s.random < TWO_74)
  }

  /** The counter keeps its low 74 bits. */
  method NextCounter(next: nat) returns (counter: nat)
    ensures counter == next % TWO_74
  {
    MaskIsRemainder(next, 74);
    Powers();
    counter := And(next, TWO_74 - 1);
  }

  method Assemble(timestamp: nat, random: nat) returns (value: nat)
    requires random < TWO_74
    ensures value == Packed(timestamp, random)
  {
    AssembledIsPacked(timestamp, random);
    value := ShiftLeft(timestamp, 80);
    value := Or(value, ShiftLeft(7, 76));
    value := Or(value, ShiftLeft(ShiftRight(random, 62), 64));
    value := Or(value, ShiftLeft(2, 62));
    value := Or(value, And(random, TWO_62 - 1));
  }

  class Generator {
    var lastTimestamp: int
    var lastRandom: int

    ghost function Last(): State
      reads this
    {
      State(lastTimestamp, lastRandom)
    }

    constructor ()
      ensures Last() == START && StateOk(Last())
    {
      lastTimestamp, lastRandom := -1, -1;
    }

    /** `clock` is what the clock reads, `random` the 74 random bits drawn if any are. */
    method New(clock: int, random: int) returns (r: Result<int, Failure>)
      requires StateOk(Last()) && 0 <= random < TWO_74
      modifies this
      ensures StateOk(Last())
      ensures (Last(), r) == Step(old(Last()), clock, random)
    {
      var timestamp := if clock < lastTimestamp then lastTimestamp else clock;
      if timestamp > TWO_48 - 1 {
        return Err(TimestampOverflow);
      }
      var value: int;
      if timestamp == lastTimestamp {
        value := NextCounter(lastRandom + 1);
        if value == 0 {
          timestamp := timestamp + 1;
          value := random;
        }
      } else {
        value := random;
      }
      lastTimestamp := timestamp;
      lastRandom := value;
      var packed := Assemble(timestamp, value);
      if packed >= TWO_128 {
        return Err(ValueTooLarge);
      }
      r := Ok(packed);
    }
  }

  function Later(s: State, clock: int): int {
    if clock < s.timestamp then s.timestamp else clock
  }

  function Advanced(s: State, clock: int, random: int): State {
    var t := Later(s, clock);
    if t != s.timestamp then State(t, random)
    else if (s.random + 1) % TWO_74 == 0 then State(t + 1, random)
    else State(t, (s.random + 1) % TWO_74)
  }

  function Step(s: State, clock: int, random: int): (State, Result<int, Failure>) {
    if Later(s, clock) > TWO_48 - 1 then (s, Err(TimestampOverflow))
    else
      var s' := Advanced(s, clock, random);
      var packed := Packed(s'.timestamp, s'.random);
      (s', if packed >= TWO_128 || packed < 0 then Err(ValueTooLarge) else Ok(packed))
  }

  lemma StepKeeps(s: State, clock: int, random: int)
    requires StateOk(s) && 0 <= random < TWO_74
    ensures StateOk(Step(s, clock, random).0)
  {
  }

  // ---------------------------------------------------------------------------------
  // Fields
  // ---------------------------------------------------------------------------------

  function Version(u: int): int { (u / TWO_76) % 16 }

  function Variant(u: int): int { (u / TWO_62) % 4 }

  function Timestamp(u: int): int { u / TWO_80 }

  function Random(u: int): int { ((u / TWO_64) % TWO_12) * TWO_62 + u % TWO_62 }

  /** Reading the fields back: version 7, the RFC variant, and the timestamp and counter that were packed. */
  lemma PackedReadsBack(timestamp: int, random: int)
    requires 0 <= timestamp < TWO_48 && 0 <= random < TWO_74
    ensures var u := Packed(timestamp, random);
            && 0 <= u < TWO_128
            && Version(u) == 7 && Variant(u) == 2 && Timestamp(u) == timestamp && Random(u) == random
  {
    var u := Packed(timestamp, random);
    var high, low := random / TWO_62, random % TWO_62;
    assert 0 <= high < TWO_12;
    Remainder(u, TWO_80, timestamp, 7 * TWO_76 + high * TWO_64 + 2 * TWO_62 + low);
    Remainder(u, TWO_76, timestamp * 16 + 7, high * TWO_64 + 2 * TWO_62 + low);
    Remainder(timestamp * 16 + 7, 16, timestamp, 7);
    Remainder(u, TWO_64, timestamp * 0x1_0000 + 7 * TWO_12 + high, 2 * TWO_62 + low);
    Remainder(timestamp * 0x1_0000 + 7 * TWO_12 + high, TWO_12, timestamp * 16 + 7, high);
    var above := timestamp * 0x4_0000 + 7 * 0x4000 + high * 4 + 2;
    Remainder(u, TWO_62, above, low);
    Remainder(above, 4, timestamp * 0x1_0000 + 7 * TWO_12 + high, 2);
  }

  /** The integers are ordered like timestamp and counter. */
  lemma PackedOrdered(t0: int, r0: int, t1: int, r1: int)
    requires 0 <= r0 < TWO_74 && 0 <= r1 < TWO_74 && (t0 < t1 || (t0 == t1 && r0 < r1))
    ensures Packed(t0, r0) < Packed(t1, r1)
  {
  }

  // ---------------------------------------------------------------------------------
  // Runs
  // ---------------------------------------------------------------------------------

  /** One call: what the clock showed and which random bits were drawn. */
  datatype Call = Call(clock: int, random: int)

  predicate CallsOk(calls: seq<Call>) {
    forall i | 0 <= i < |calls| :: 0 <= calls[i].random < TWO_74
  }

  /** The identifiers a run of calls returns, failures left out. */
  function Identifiers(s: State, calls: seq<Call>): seq<int>
    decreases |calls|
  {
    if calls == [] then []
    else
      var (s', r) := Step(s, calls[0].clock, calls[0].random);
      (if r.Ok? then [r.value] else []) + Identifiers(s', calls[1..])
  }

  function Final(s: State, calls: seq<Call>): State
    decreases |calls|
  {
    if calls == [] then s else Final(Step(s, calls[0].clock, calls[0].random).0, calls[1..])
  }

  lemma StepGrows(s: State, clock: int, random: int)
    requires StateOk(s) && 0 <= random < TWO_74
    ensures var (s', r) := Step(s, clock, random);
            && (s' == s || s.timestamp < s'.timestamp || (s.timestamp == s'.timestamp && s.random < s'.random))
            && (r.Ok? ==> s' != s && 0 <= s'.timestamp < TWO_48 && r.value == Packed(s'.timestamp, s'.random))
  {
    var s' := Step(s, clock, random).0;
    if s'.timestamp >= TWO_48 {
      assert Packed(s'.timestamp, s'.random) >= TWO_48 * TWO_80;
    }
  }

  lemma {:induction false} AllLater(s: State, calls: seq<Call>, i: nat)
    requires StateOk(s) && s != START && CallsOk(calls) && i < |Identifiers(s, calls)|
    ensures Packed(s.timestamp, s.random) < Identifiers(s, calls)[i]
    decreases |calls|
  {
    var (s', r) := Step(s, calls[0].clock, calls[0].random);
    StepKeeps(s, calls[0].clock, calls[0].random);
    StepGrows(s, calls[0].clock, calls[0].random);
    if s' != s {
      PackedOrdered(s.timestamp, s.random, s'.timestamp, s'.random);
    }
    if r.Ok? {
      if i > 0 { AllLater(s', calls[1..], i - 1); }
    } else {
      AllLater(s', calls[1..], i);
    }
  }

  /**
   Whatever the clock does, backwards included, and whatever bits are drawn, with the
   counter wrapping or not: the identifiers returned are strictly increasing.
   */
  lemma {:induction false} StrictlyIncreasing(s: State, calls: seq<Call>, i: nat, j: nat)
    requires StateOk(s) && CallsOk(calls) && i < j < |Identifiers(s, calls)|
    ensures Identifiers(s, calls)[i] < Identifiers(s, calls)[j]
    decreases |calls|
  {
    var (s', r) := Step(s, calls[0].clock, calls[0].random);
    StepKeeps(s, calls[0].clock, calls[0].random);
    StepGrows(s, calls[0].clock, calls[0].random);
    if r.Ok? {
      if i == 0 {
        AllLater(s', calls[1..], j - 1);
      } else {
        StrictlyIncreasing(s', calls[1..], i - 1, j - 1);
      }
    } else {
      StrictlyIncreasing(s', calls[1..], i, j);
    }
  }

  /**
   Every identifier is a version 7 UUID that decodes to the generator's state, never behind the
   clock and at most one ahead.
   */
  lemma IdentifierDecodes(s: State, clock: int, random: int)
    requires StateOk(s) && 0 <= random < TWO_74 && Step(s, clock, random).1.Ok?
    ensures var (s', r) := Step(s, clock, random);
            && 0 <= r.value < TWO_128 && Version(r.value) == 7 && Variant(r.value) == 2
            && Timestamp(r.value) == s'.timestamp && Random(r.value) == s'.random
            && clock <= Timestamp(r.value) <= Later(s, clock) + 1
  {
    var s' := Step(s, clock, random).0;
    StepGrows(s, clock, random);
    PackedReadsBack(s'.timestamp, s'.random);
  }

  /**
   A later millisecond starts with the drawn bits, within one the counter goes up by one, and when
   it would wrap the next millisecond is borrowed with drawn bits.
   */
  lemma IdentifierFields(s: State, clock: int, random: int)
    requires StateOk(s) && 0 <= random < TWO_74 && Step(s, clock, random).1.Ok?
    ensures var u := Step(s, clock, random).1.value;
            && (clock > s.timestamp ==> Timestamp(u) == clock && Random(u) == random)
            && (clock <= s.timestamp && s.random + 1 < TWO_74 && s != START ==>
                  Timestamp(u) == s.timestamp && Random(u) == s.random + 1)
            && (clock <= s.timestamp && s.random + 1 == TWO_74 ==>
                  Timestamp(u) == s.timestamp + 1 && Random(u) == random)
  {
    IdentifierDecodes(s, clock, random);
  }

  // ---------------------------------------------------------------------------------
  // Failure
  // ---------------------------------------------------------------------------------

  /** A call fails exactly when time is past 48 bits or the counter wraps in the last millisecond. */
  lemma FailsIff(s: State, clock: int, random: int)
    requires StateOk(s) && 0 <= random < TWO_74
    ensures Step(s, clock, random).1.Err? <==>
            Later(s, clock) >= TWO_48 || (Later(s, clock) == s.timestamp == TWO_48 - 1 && s.random == TWO_74 - 1)
  {
    var s' := Step(s, clock, random).0;
    if Later(s, clock) < TWO_48 {
      if s'.timestamp < TWO_48 {
        PackedReadsBack(s'.timestamp, s'.random);
      } else {
        assert Packed(s'.timestamp, s'.random) >= TWO_48 * TWO_80;
      }
    }
  }

  /**
   The wrap in the last millisecond stores a timestamp past 48 bits, and from then on every call
   fails, whatever the clock shows.
   */
  lemma {:induction false} WrapAtTheEndIsFinal(calls: seq<Call>, clock: int, random: int)
    requires CallsOk(calls) && 0 <= random < TWO_74 && clock <= TWO_48 - 1
    ensures var s' := Step(State(TWO_48 - 1, TWO_74 - 1), clock, random).0;
            s'.timestamp == TWO_48 && Identifiers(s', calls) == []
    decreases |calls|
  {
    var s' := Step(State(TWO_48 - 1, TWO_74 - 1), clock, random).0;
    if calls != [] {
      assert Step(s', calls[0].clock, calls[0].random).0 == s';
      WrapAtTheEndIsFinal(calls[1..], clock, random);
    }
  }

  /** Two calls are enough to get there: the largest random value in the last millisecond, and one more call. */
  lemma TwoCallsEndTheGenerator(more: seq<Call>) returns (calls: seq<Call>)
    requires CallsOk(more)
    ensures CallsOk(calls) && |Identifiers(START, calls)| == 1
    ensures Final(START, calls).timestamp == TWO_48 && Identifiers(Final(START, calls), more) == []
  {
    var last := Call(TWO_48 - 1, TWO_74 - 1);
    calls := [last, last];
    assert calls[1..] == [last] && calls[1..][1..] == [];
    assert Step(START, last.clock, last.random).0 == State(TWO_48 - 1, TWO_74 - 1);
    FailsIff(START, last.clock, last.random);
    FailsIff(State(TWO_48 - 1, TWO_74 - 1), last.clock, last.random);
    WrapAtTheEndIsFinal(more, last.clock, last.random);
    var s2 := Step(State(TWO_48 - 1, TWO_74 - 1), last.clock, last.random).0;
    TwoSteps(last, s2);
  }

  lemma TwoSteps(c: Call, s2: State)
    requires s2 == Step(Step(START, c.clock, c.random).0, c.clock, c.random).0
    ensures Final(START, [c, c]) == s2
    ensures |Identifiers(START, [c, c])| ==
            (if Step(START, c.clock, c.random).1.Ok? then 1 else 0)
            + (if Step(Step(START, c.clock, c.random).0, c.clock, c.random).1.Ok? then 1 else 0)
  {
    assert [c, c][1..] == [c] && [c][1..] == [];
    assert Final(s2, []) == s2;
    assert Identifiers(s2, []) == [];
  }
}
