/** Powers of naturals, and the division and multiplication facts the arithmetic proofs share. */
module Powers {
  function Pow(b: nat, e: nat): (p: nat)
    ensures b > 0 ==> p > 0
  {
    if e == 0 then 1 else b * Pow(b, e - 1)
  }

  lemma {:induction false} PowAdd(b: nat, d: nat, e: nat)
    ensures Pow(b, d + e) == Pow(b, d) * Pow(b, e)
  {
    if d > 0 {
      PowAdd(b, d - 1, e);
      MulAssociates(b, Pow(b, d - 1), Pow(b, e));
    }
  }

  lemma MulAssociates(a: int, b: int, c: int)
    ensures a * (b * c) == a * b * c
  {
  }

  lemma {:induction false} PowMul(b: nat, d: nat, e: nat, m: nat)
    requires m == d * e
    ensures Pow(Pow(b, d), e) == Pow(b, m)
    decreases e
  {
    if e > 0 {
      assert m == d + d * (e - 1);
      MulMonotone(0, d, e - 1);
      PowMul(b, d, e - 1, d * (e - 1));
      PowAdd(b, d, d * (e - 1));
    }
  }

  lemma PowMonotone(b: nat, d: nat, e: nat)
    requires b > 0 && d <= e
    ensures Pow(b, d) <= Pow(b, e)
  {
    PowAdd(b, d, e - d);
    MulMonotone(1, Pow(b, e - d), Pow(b, d));
  }

  lemma MulMonotone(a: int, b: int, p: int)
    requires a <= b && p >= 0
    ensures a * p <= b * p && p * a <= p * b
  {
  }

  lemma MulStrict(a: int, b: int, p: int)
    requires a < b && p > 0
    ensures a * p < b * p
  {
  }

  /** Quotient and remainder are what they should be. */
  lemma DivUnique(a: nat, d: nat, q: int, r: int)
    requires a == q * d + r && 0 <= r < d
    ensures a / d == q && a % d == r
  {
    var v, w := a / d, a % d;
    assert a == v * d + w;
    assert (q + 1) * d == q * d + d && (v + 1) * d == v * d + d;
    if q < v {
      MulMonotone(q + 1, v, d);
    } else if v < q {
      MulMonotone(v + 1, q, d);
    }
  }

  /** Congruence modulo m, with the quotient as witness. */
  lemma ModOf(a: nat, m: nat, r: nat, q: int)
    requires a == r + q * m && r < m
    ensures a % m == r
  {
    DivUnique(a, m, q, r);
  }

  lemma DivMulExact(a: nat, d: nat)
    requires d > 0
    ensures a * d / d == a && a * d % d == 0
  {
    DivUnique(a * d, d, a, 0);
  }

  lemma DivBound(a: nat, d: nat, e: nat)
    requires d > 0 && a < d * e
    ensures a / d < e
  {
    assert a == (a / d) * d + a % d;
    if a / d >= e {
      MulMonotone(e, a / d, d);
    }
  }

  lemma DivShrinks(a: nat, d: nat)
    requires d > 0
    ensures a / d <= a
  {
    assert a == a / d * d + a % d;
    MulMonotone(1, d, a / d);
  }

  lemma PowersOfTwo()
    ensures Pow(2, 4) == 16 && Pow(2, 8) == 256 && Pow(2, 16) == 0x1_0000
    ensures Pow(2, 23) == 0x80_0000 && Pow(2, 24) == 0x100_0000 && Pow(2, 32) == 0x1_0000_0000
  {
    assert Pow(2, 3) == 8 && Pow(2, 4) == 16;
    PowAdd(2, 4, 4);
    PowAdd(2, 8, 8);
    PowAdd(2, 16, 8);
    PowAdd(2, 16, 16);
    assert Pow(2, 24) == 2 * Pow(2, 23);
  }
}
