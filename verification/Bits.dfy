/** Bitwise operators on natural numbers, and when they are arithmetic. */
module Bits {
  function Pow2(k: nat): (p: nat)
    ensures p > 0
  {
    if k == 0 then 1 else 2 * Pow2(k - 1)
  }

  lemma {:induction false} Pow2Add(j: nat, k: nat)
    ensures Pow2(j + k) == Pow2(j) * Pow2(k)
    decreases k
  {
    if k > 0 {
      Pow2Add(j, k - 1);
      Doubled(Pow2(j), Pow2(k - 1));
    }
  }

  function Or(x: nat, y: nat): nat
    decreases x + y
  {
    if x == 0 && y == 0 then 0
    else 2 * Or(x / 2, y / 2) + (if x % 2 == 1 || y % 2 == 1 then 1 else 0)
  }

  function And(x: nat, y: nat): nat
    decreases x + y
  {
    if x == 0 && y == 0 then 0
    else 2 * And(x / 2, y / 2) + (if x % 2 == 1 && y % 2 == 1 then 1 else 0)
  }

  function ShiftLeft(x: nat, k: nat): nat {
    x * Pow2(k)
  }

  function ShiftRight(x: nat, k: nat): nat
    decreases k
  {
    if k == 0 then x else ShiftRight(x / 2, k - 1)
  }

  lemma {:induction false} OrZero(x: nat)
    ensures Or(x, 0) == x
  {
    if x > 0 {
      OrZero(x / 2);
    }
  }

  lemma {:induction false} AndZero(x: nat)
    ensures And(x, 0) == 0
  {
    if x > 0 {
      AndZero(x / 2);
    }
  }

  /** Bits that do not overlap combine by addition. */
  lemma {:induction false} OrAdds(x: nat, y: nat, k: nat)
    requires y < Pow2(k)
    ensures Or(ShiftLeft(x, k), y) == ShiftLeft(x, k) + y
    decreases k
  {
    if k == 0 {
      OrZero(x);
    } else {
      var half := ShiftLeft(x, k - 1);
      assert ShiftLeft(x, k) == 2 * half by { Doubled(x, Pow2(k - 1)); }
      OrAdds(x, y / 2, k - 1);
      assert (2 * half) / 2 == half && (2 * half) % 2 == 0;
    }
  }

  lemma OrAddsAt(x: nat, y: nat, k: nat, p: nat)
    requires p == Pow2(k) && y < p
    ensures ShiftLeft(x, k) == x * p && Or(x * p, y) == x * p + y
  {
    OrAdds(x, y, k);
  }

  lemma Doubled(x: nat, p: nat)
    ensures x * (2 * p) == 2 * (x * p)
  {
  }

  /** Keeping the low k bits is taking the remainder. */
  lemma {:induction false} MaskIsRemainder(x: nat, k: nat)
    ensures And(x, Pow2(k) - 1) == x % Pow2(k)
    decreases k
  {
    if k == 0 {
      AndZero(x);
    } else {
      var p := Pow2(k - 1);
      MaskIsRemainder(x / 2, k - 1);
      assert (2 * p - 1) / 2 == p - 1 && (2 * p - 1) % 2 == 1;
      HalfRemainder(x, p);
    }
  }

  lemma HalfRemainder(x: nat, p: nat)
    requires p > 0
    ensures x % (2 * p) == 2 * ((x / 2) % p) + x % 2 && x / (2 * p) == (x / 2) / p
  {
    var q, r := (x / 2) / p, (x / 2) % p;
    assert x / 2 == q * p + r;
    assert x == 2 * (q * p + r) + x % 2;
    Doubled(q, p);
    Remainder(x, 2 * p, q, 2 * r + x % 2);
  }

  /** Shifting right is dividing. */
  lemma {:induction false} ShiftRightDivides(x: nat, k: nat)
    ensures ShiftRight(x, k) == x / Pow2(k)
    decreases k
  {
    if k > 0 {
      ShiftRightDivides(x / 2, k - 1);
      HalfRemainder(x, Pow2(k - 1));
    }
  }

  lemma Multiple(k: int, d: int)
    requires d > 0
    ensures (k >= 1 ==> k * d >= d) && (k <= -1 ==> k * d <= -d)
  {
    if k >= 1 {
      assert (k - 1) * d >= 0;
    } else if k <= -1 {
      assert (-k - 1) * d >= 0;
    }
  }

  /** Quotient and remainder are determined by their equation. */
  lemma Remainder(x: int, d: int, q: int, r: int)
    requires d > 0 && x == q * d + r && 0 <= r < d
    ensures x / d == q && x % d == r
  {
    assert x == (x / d) * d + x % d;
    assert (x / d - q) * d == (x / d) * d - q * d;
    Multiple(x / d - q, d);
  }
}
