/** Unsigned integers as rows of bits. */
module Bits {
  function Pow2(s: nat): (p: nat)
    ensures p > 0
  {
    if s == 0 then 1 else 2 * Pow2(s - 1)
  }

  function And(x: nat, y: nat): nat
    decreases x
  {
    if x == 0 then 0 else 2 * And(x / 2, y / 2) + (if x % 2 == 1 && y % 2 == 1 then 1 else 0)
  }

  function Or(x: nat, y: nat): nat
    decreases x + y
  {
    if x == 0 && y == 0 then 0 else 2 * Or(x / 2, y / 2) + (if x % 2 == 1 || y % 2 == 1 then 1 else 0)
  }

  /** The number of bits set. */
  function Ones(x: nat): nat {
    if x == 0 then 0 else Ones(x / 2) + x % 2
  }

  /** Numbers by their last bit. */
  lemma LastBit(a: nat, x: nat, b: nat, y: nat)
    requires x <= 1 && y <= 1
    ensures (2 * a + x) / 2 == a && (2 * a + x) % 2 == x
    ensures And(2 * a + x, 2 * b + y) == 2 * And(a, b) + (if x == 1 && y == 1 then 1 else 0)
    ensures Ones(2 * a + x) == Ones(a) + x
  {
    assert (2 * a + x) / 2 == a && (2 * a + x) % 2 == x && (2 * b + y) / 2 == b && (2 * b + y) % 2 == y;
  }

  lemma {:induction false} AndSelf(x: nat)
    ensures And(x, x) == x
  {
    if x > 0 {
      AndSelf(x / 2);
      if x % 2 == 1 {
        LastBit(x / 2, 1, x / 2, 1);
      } else {
        LastBit(x / 2, 0, x / 2, 0);
      }
    }
  }

  /** `k & (k - 1)` drops exactly one bit. */
  lemma {:induction false} AndLess(k: nat)
    requires k > 0
    ensures And(k, k - 1) < k && Ones(And(k, k - 1)) == Ones(k) - 1
  {
    var m := k / 2;
    if k % 2 == 1 {
      LastBit(m, 1, m, 0);
      LastBit(m, 0, 0, 0);
      AndSelf(m);
      assert And(k, k - 1) == 2 * m;
    } else {
      AndLess(m);
      LastBit(m, 0, m - 1, 1);
      LastBit(And(m, m - 1), 0, 0, 0);
      assert And(k, k - 1) == 2 * And(m, m - 1);
    }
  }

  lemma {:induction false} OrZero(x: nat)
    ensures Or(x, 0) == x
  {
    if x > 0 {
      OrZero(x / 2);
    }
  }

  /** Setting a bit below all those that can be set adds it. */
  lemma {:induction false} OrAdds(x: nat, b: nat, s: nat)
    requires b <= 1
    ensures Or(x * Pow2(s + 1), b * Pow2(s)) == x * Pow2(s + 1) + b * Pow2(s)
    decreases s
  {
    if s == 0 {
      assert Pow2(1) == 2 && Pow2(0) == 1;
      OrZero(x);
      assert (x * 2) / 2 == x && b / 2 == 0;
    } else {
      OrAdds(x, b, s - 1);
      Halves(x, s);
      Halves(b, s - 1);
    }
  }

  /** Numbers below a power of two and multiples of it have no bits in common. */
  lemma {:induction false} OrJoins(b: nat, x: nat, s: nat)
    requires b < Pow2(s)
    ensures Or(b, x * Pow2(s)) == b + x * Pow2(s)
    decreases s
  {
    if s == 0 {
      OrZeroLeft(x);
    } else {
      OrJoins(b / 2, x, s - 1);
      Halves(x, s - 1);
      OrStep(b, x * Pow2(s), b / 2, x * Pow2(s - 1));
    }
  }

  lemma OrStep(b: nat, y: nat, b2: nat, y2: nat)
    requires b2 == b / 2 && y == 2 * y2
    ensures Or(b, y) == 2 * Or(b2, y2) + b % 2
  {
    assert y / 2 == y2 && y % 2 == 0;
    if b == 0 && y == 0 {
      assert b2 == 0 && y2 == 0;
    }
  }

  lemma {:induction false} OrZeroLeft(x: nat)
    ensures Or(0, x) == x
  {
    if x > 0 {
      OrZeroLeft(x / 2);
    }
  }

  lemma Halves(x: nat, s: nat)
    ensures x * Pow2(s + 1) == 2 * (x * Pow2(s))
  {
  }

  lemma DivTwice(x: nat, s: nat)
    ensures x / Pow2(s + 1) == (x / 2) / Pow2(s)
  {
    var p := Pow2(s);
    var q, m := x / 2, x % 2;
    var d, e := q / p, q % p;
    assert q == d * p + e;
    assert x == 2 * (d * p + e) + m == d * (2 * p) + (2 * e + m);
    DivIs(x, 2 * p, d, 2 * e + m);
  }

  lemma AtLeastOnce(k: int, p: int)
    requires k >= 1 && p > 0
    ensures k * p >= p
  {
    assert (k - 1) * p >= 0;
  }

  lemma DivIs(x: nat, p: nat, d: nat, e: nat)
    requires p > 0 && e < p && x == d * p + e
    ensures x / p == d
  {
    var q, r := x / p, x % p;
    assert (q - d) * p == e - r;
    if q > d {
      AtLeastOnce(q - d, p);
    } else if q < d {
      AtLeastOnce(d - q, p);
    }
  }

  lemma LessTimes(e: nat, q: nat, p: nat)
    requires e < q && p > 0
    ensures e * p < q * p
  {
    AtLeastOnce(q - e, p);
    assert q * p == (q - e) * p + e * p;
  }

  lemma Regroup(d: nat, q: nat, e: nat, p: nat)
    ensures (d * q + e) * p == d * (q * p) + e * p
  {
  }

  lemma Multiples(x: nat, p: nat, q: nat)
    requires p > 0 && q > 0
    ensures (x * p) / (q * p) == x / q
  {
    var d, e := x / q, x % q;
    assert x == d * q + e;
    Regroup(d, q, e, p);
    LessTimes(e, q, p);
    DivIs(x * p, q * p, d, e * p);
  }

  lemma DivNat(x: nat, p: nat)
    requires p > 0
    ensures x / p >= 0
  {
    var q := x / p;
    assert x == q * p + x % p;
    if q < 0 {
      AtLeastOnce(-q, p);
    }
  }

  lemma {:induction false} PowAdds(x: nat, y: nat)
    ensures Pow2(x + y) == Pow2(x) * Pow2(y)
  {
    if x > 0 {
      PowAdds(x - 1, y);
    }
  }

  /** `x >> s`. */
  function Shifted(x: nat, s: nat): nat {
    DivNat(x, Pow2(s));
    x / Pow2(s)
  }
}
