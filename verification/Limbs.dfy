/**
 The number an array of 32-bit limbs stands for, least significant limb first, and the
 bit operations on limbs that its arithmetic uses.
 */
module Limbs {
  import opened Powers

  const B: int := 0x1_0000_0000
  type Limb = x: int | 0 <= x < 0x1_0000_0000

  /** The low word of a 64-bit accumulator, and what is above it. */
  function Low(n: nat): Limb { n % B }
  function High(n: nat): int { n / B }

  /** x at limb i: x times B to the i. */
  function At(x: int, i: nat): (r: int)
    ensures x >= 0 ==> r >= 0
    ensures x == 0 ==> r == 0
    ensures x > 0 ==> r > 0
  {
    if i == 0 then x else B * At(x, i - 1)
  }

  /** The span of i limbs. */
  function Base(i: nat): (p: nat)
    ensures p > 0
  {
    At(1, i)
  }

  lemma AtLow(x: int)
    ensures At(x, 0) == x && At(x, 1) == B * x && At(x, 2) == B * B * x
  {
    assert At(x, 1) == B * At(x, 0);
    assert At(x, 2) == B * At(x, 1);
  }

  lemma {:induction false} AtAdd(x: int, y: int, i: nat)
    ensures At(x + y, i) == At(x, i) + At(y, i)
  {
    if i > 0 {
      AtAdd(x, y, i - 1);
    }
  }

  lemma {:induction false} AtUp(x: int, i: nat)
    ensures At(B * x, i) == At(x, i + 1)
  {
    if i > 0 {
      AtUp(x, i - 1);
    }
  }

  lemma {:induction false} AtMonotone(x: int, y: int, i: nat)
    requires x <= y
    ensures At(x, i) <= At(y, i)
  {
    if i > 0 {
      AtMonotone(x, y, i - 1);
    }
  }

  lemma {:induction false} AtTimes(x: int, i: nat)
    ensures At(x, i) == x * Base(i)
  {
    if i > 0 {
      AtTimes(x, i - 1);
    }
  }

  lemma {:induction false} AtScale(c: int, x: int, i: nat)
    ensures At(c * x, i) == c * At(x, i)
  {
    if i > 0 {
      AtScale(c, x, i - 1);
      assert c * (B * At(x, i - 1)) == B * (c * At(x, i - 1));
    }
  }

  lemma {:induction false} AtAt(x: int, i: nat, k: nat)
    ensures At(At(x, i), k) == At(x, i + k)
  {
    if k > 0 {
      AtAt(x, i, k - 1);
    }
  }

  lemma {:induction false} BaseIsPow(i: nat)
    ensures Base(i) == Pow(2, 32 * i)
  {
    if i > 0 {
      BaseIsPow(i - 1);
      PowAdd(2, 32, 32 * (i - 1));
      PowersOfTwo();
    }
  }

  /** The number in the lowest i limbs. */
  function ValTo(s: seq<Limb>, i: nat): nat
    requires i <= |s|
  {
    if i == 0 then 0 else ValTo(s, i - 1) + At(s[i - 1], i - 1)
  }

  function Val(s: seq<Limb>): nat { ValTo(s, |s|) }

  lemma {:induction false} ValBound(s: seq<Limb>, i: nat)
    requires i <= |s|
    ensures ValTo(s, i) < Base(i)
  {
    if i > 0 {
      ValBound(s, i - 1);
      var x: int := s[i - 1];
      AtMonotone(x + 1, B, i - 1);
      AtAdd(x, 1, i - 1);
      AtUp(1, i - 1);
    }
  }

  lemma {:induction false} SameBelow(s: seq<Limb>, t: seq<Limb>, i: nat)
    requires i <= |s| && i <= |t| && forall j :: 0 <= j < i ==> s[j] == t[j]
    ensures ValTo(s, i) == ValTo(t, i)
  {
    if i > 0 {
      SameBelow(s, t, i - 1);
    }
  }

  /** Arrays that agree from limb i on differ by what is below. */
  lemma {:induction false} SameAbove(s: seq<Limb>, t: seq<Limb>, i: nat, k: nat)
    requires i <= k <= |s| && k <= |t| && forall j :: i <= j < k ==> s[j] == t[j]
    ensures ValTo(s, k) - ValTo(s, i) == ValTo(t, k) - ValTo(t, i)
  {
    if i < k {
      SameAbove(s, t, i, k - 1);
    }
  }

  lemma {:induction false} ValUpdate(s: seq<Limb>, i: nat, x: Limb)
    requires i < |s|
    ensures Val(s[i := x]) == Val(s) + At(x - s[i], i)
  {
    var t := s[i := x];
    SameBelow(s, t, i);
    SameAbove(s, t, i + 1, |s|);
    AtAdd(x - s[i], s[i], i);
  }

  lemma {:induction false} ValZeros(s: seq<Limb>, i: nat, k: nat)
    requires i <= k <= |s| && forall j :: i <= j < k ==> s[j] == 0
    ensures ValTo(s, k) == ValTo(s, i)
  {
    if i < k {
      ValZeros(s, i, k - 1);
    }
  }

  /** A total as an array of w limbs holds it: modulo its span. */
  function Wrap(total: nat, w: nat): nat { total % Base(w) }

  /** An array holds a total modulo its span, when they differ by a multiple of the span. */
  lemma ValIsMod(s: seq<Limb>, total: nat, q: int)
    requires total == Val(s) + At(q, |s|)
    ensures Val(s) == Wrap(total, |s|)
  {
    ValBound(s, |s|);
    AtTimes(q, |s|);
    ModOf(total, Base(|s|), Val(s), q);
  }

  /** The highest differing limb decides. */
  lemma HighestDecides(s: seq<Limb>, t: seq<Limb>, i: nat)
    requires i < |s| == |t| && s[i] < t[i] && forall j :: i < j < |s| ==> s[j] == t[j]
    ensures Val(s) < Val(t)
  {
    SameAbove(s, t, i + 1, |s|);
    ValBound(s, i);
    var x: int := s[i];
    AtMonotone(x + 1, t[i], i);
    AtAdd(x, 1, i);
  }

  // ---- bits of a limb

  function Or(a: nat, b: nat): nat
    decreases a + b
  {
    if a + b == 0 then 0 else (if a % 2 == 1 || b % 2 == 1 then 1 else 0) + 2 * Or(a / 2, b / 2)
  }

  /** Numbers that share no bits: one is a multiple of a power of two, the other below it. */
  lemma {:induction false} OrIsSum(a: nat, b: nat, s: nat)
    requires a % Pow(2, s) == 0 && b < Pow(2, s)
    ensures Or(a, b) == a + b && Or(b, a) == a + b
    decreases s
  {
    if s == 0 {
      OrZero(a);
    } else if a + b > 0 {
      HalfOfMultiple(a, Pow(2, s - 1));
      OrIsSum(a / 2, b / 2, s - 1);
    }
  }

  lemma HalfOfMultiple(a: nat, p: nat)
    requires p > 0 && a % (2 * p) == 0
    ensures a % 2 == 0 && a / 2 % p == 0
  {
    var q := a / (2 * p);
    assert a == q * (2 * p) == 2 * (q * p);
    DivMulExact(q, p);
  }

  lemma {:induction false} OrZero(a: nat)
    ensures Or(a, 0) == a && Or(0, a) == a
  {
    if a > 0 {
      OrZero(a / 2);
    }
  }

  /** The two halves a left shift of a limb falls into. */
  lemma ShiftHalves(x: Limb, s: nat)
    requires s < 32
    ensures x / Pow(2, 32 - s) < Pow(2, s)
    ensures x * Pow(2, s) == x / Pow(2, 32 - s) * B + x * Pow(2, s) % B
    ensures x * Pow(2, s) % B % Pow(2, s) == 0 && x * Pow(2, s) % B + Pow(2, s) <= B
  {
    var p, q := Pow(2, s), Pow(2, 32 - s);
    PowAdd(2, s, 32 - s);
    PowersOfTwo();
    SplitProduct(x, p, q, B);
  }

  lemma SplitProduct(x: nat, p: nat, q: nat, b: nat)
    requires p > 0 && q > 0 && b == p * q && x < b
    ensures x / q < p
    ensures x * p / b == x / q && x * p % b == x % q * p
    ensures x * p == x / q * b + x % q * p
    ensures x % q * p % p == 0 && x % q * p + p <= b
  {
    var h, l := x / q, x % q;
    DivBound(x, q, p);
    assert x == h * q + l;
    calc {
      x * p;
      (h * q + l) * p;
      h * q * p + l * p;
      { assert h * q * p == h * (p * q); }
      h * b + l * p;
    }
    MulMonotone(l + 1, q, p);
    assert (l + 1) * p == l * p + p;
    DivUnique(x * p, b, h, l * p);
    DivMulExact(l, p);
  }
}
