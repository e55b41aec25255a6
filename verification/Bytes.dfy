/** Byte strings delivered in pieces. */
module Bytes {
  newtype Byte = b: int | 0 <= b < 256

  type Blob = seq<Byte>

  /** ASCII text on the wire. */
  function Text(s: string): Blob {
    seq(|s|, i requires 0 <= i < |s| => (s[i] as int % 256) as Byte)
  }

  const CRLF: Blob := [13, 10]

  function Flatten(chunks: seq<Blob>): Blob {
    if chunks == [] then [] else chunks[0] + Flatten(chunks[1..])
  }

  lemma {:induction false} FlattenAppend(a: seq<Blob>, b: seq<Blob>)
    ensures Flatten(a + b) == Flatten(a) + Flatten(b)
  {
    if a == [] {
      assert a + b == b;
    } else {
      assert (a + b)[0] == a[0] && (a + b)[1..] == a[1..] + b;
      FlattenAppend(a[1..], b);
      assert a[0] + (Flatten(a[1..]) + Flatten(b)) == a[0] + Flatten(a[1..]) + Flatten(b);
    }
  }

  lemma FlattenSnoc(a: seq<Blob>, c: Blob)
    ensures Flatten(a + [c]) == Flatten(a) + c
  {
    FlattenAppend(a, [c]);
    assert Flatten([c]) == c + Flatten([]);
  }

  lemma FlattenStep(a: seq<Blob>, i: nat)
    requires i < |a|
    ensures Flatten(a[..i + 1]) == Flatten(a[..i]) + a[i]
  {
    assert a[..i + 1] == a[..i] + [a[i]];
    FlattenSnoc(a[..i], a[i]);
  }
}
