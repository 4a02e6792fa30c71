/**
 What the Bech32 checksum is: the remainder of a polynomial over the field of 32 elements
 (BIP 173, section "Bech32", "Checksum"). Elements are five bits, the lowest first, which are
 themselves coefficients of a polynomial over the field of two elements modulo a^5 + a^3 + 1.
 */
module Bech32Field {
  import opened Bech32Model

  // ---- the field

  type Element = e: seq<bool> | |e| == 5 witness [false, false, false, false, false]

  const NOUGHT: Element := [false, false, false, false, false]

  /** The element whose bits are those of a number below 32. */
  function Of(v: nat): Element { [Bit(v, 0), Bit(v, 1), Bit(v, 2), Bit(v, 3), Bit(v, 4)] }

  function Add(d: Element, e: Element): Element { seq(5, b requires 0 <= b < 5 => d[b] != e[b]) }

  /** {2} times an element: multiplied by a, where a^5 is a^3 + 1. */
  function Double(e: Element): Element { [e[4], e[0], e[1], e[2] != e[4], e[3]] }

  /** {2}^n times an element. */
  function Doubled(e: Element, n: nat): Element { if n == 0 then e else Double(Doubled(e, n - 1)) }

  /** The first n terms of d * e, one for each bit of d. */
  function Terms(d: Element, e: Element, n: nat): Element
    requires n <= 5
  {
    if n == 0 then NOUGHT else Add(Terms(d, e, n - 1), if d[n - 1] then Doubled(e, n - 1) else NOUGHT)
  }

  function Times(d: Element, e: Element): Element { Terms(d, e, |d|) }

  /** The two examples that the documentation of PolyMod gives. */
  lemma TimesExample()
    ensures Times(Of(5), Of(26)) == Of(9) && Add(Of(27), Of(13)) == Of(22)
  {
    var d, e := [true, false, true, false, false], [false, true, false, true, true];
    assert Of(5) == d && Of(26) == e && Of(9) == [true, false, false, true, false];
    assert Doubled(e, 1) == [true, false, true, true, true];
    assert Doubled(e, 2) == Double(Doubled(e, 1)) == [true, true, false, false, true];
    assert Terms(d, e, 1) == e && Terms(d, e, 2) == e;
    assert Terms(d, e, 3) == [true, false, false, true, false];
    assert Terms(d, e, 4) == Terms(d, e, 3);
  }

  // ---- polynomials over it, the coefficient of the highest power first

  /** The generator g(x) but for its leading x^6, which is x^6 modulo g(x). */
  const LOW: seq<nat> := [29, 22, 20, 21, 29, 18]

  function Low(j: nat): Element
    requires j < 6
  {
    Of(LOW[j])
  }

  /** e * g(x). */
  function Multiple(e: Element): seq<Element> { [e] + seq(6, j requires 0 <= j < 6 => Times(e, Low(j))) }

  /** The polynomial p + [z], plus the polynomial r in its lowest places. */
  function AddLow(p: seq<Element>, r: seq<Element>): (s: seq<Element>)
    requires |r| <= |p|
    ensures |s| == |p|
  {
    seq(|p|, i requires 0 <= i < |p| => if i < |p| - |r| then p[i] else Add(p[i], r[i - (|p| - |r|)]))
  }

  /** q(x) * g(x), with as many coefficients as six more than q. */
  function Product(q: seq<Element>): (p: seq<Element>)
    ensures |p| == |q| + 6
  {
    if q == [] then seq(6, _ => NOUGHT) else AddLow(Product(q[..|q| - 1]) + [NOUGHT], Multiple(q[|q| - 1]))
  }

  function Padded(f: seq<Element>): seq<Element> { seq(6, _ => NOUGHT) + f }

  /** f(x) == q(x) * g(x) + r(x), where r has degree below six. */
  ghost predicate Divides(f: seq<Element>, q: seq<Element>, r: seq<Element>) {
    |r| == 6 && |q| == |f| && Padded(f) == AddLow(Product(q), r)
  }

  /** r is the remainder of f modulo g. */
  ghost predicate IsRemainder(f: seq<Element>, r: seq<Element>) { exists q :: Divides(f, q, r) }

  lemma AddCancels(a: Element, b: Element, c: Element)
    ensures Add(a, c) == Add(b, c) ==> a == b
    ensures Add(c, a) == Add(c, b) ==> a == b
  {
    if Add(a, c) == Add(b, c) || Add(c, a) == Add(c, b) {
      forall i | 0 <= i < 5
        ensures a[i] == b[i]
      {
        assert Add(a, c)[i] == (a[i] != c[i]) && Add(b, c)[i] == (b[i] != c[i]);
        assert Add(c, a)[i] == (a[i] != c[i]) && Add(c, b)[i] == (b[i] != c[i]);
      }
    }
  }

  /** A product is determined by as many leading coefficients as the factor has. */
  lemma {:induction false} LeadingDetermines(q: seq<Element>, p: seq<Element>)
    requires |q| == |p| && Product(q)[..|q|] == Product(p)[..|p|]
    ensures q == p
    decreases |q|
  {
    if q != [] {
      var n := |q| - 1;
      var a, b := Product(q[..n]), Product(p[..n]);
      forall i | 0 <= i < n
        ensures a[i] == b[i]
      {
        assert Product(q)[..|q|][i] == Product(q)[i] == a[i];
        assert Product(p)[..|p|][i] == Product(p)[i] == b[i];
      }
      assert a[..n] == b[..n];
      LeadingDetermines(q[..n], p[..n]);
      assert Product(q)[..|q|][n] == Product(q)[n] == Add((a + [NOUGHT])[n], q[n]);
      assert Product(p)[..|p|][n] == Product(p)[n] == Add((b + [NOUGHT])[n], p[n]);
      AddCancels(q[n], p[n], (a + [NOUGHT])[n]);
      assert q == q[..n] + [q[n]] && p == p[..n] + [p[n]];
    }
  }

  /** There is only one remainder. */
  lemma RemainderIsUnique(f: seq<Element>, r: seq<Element>, s: seq<Element>)
    requires IsRemainder(f, r) && IsRemainder(f, s)
    ensures r == s
  {
    var q :| Divides(f, q, r);
    var p :| Divides(f, p, s);
    var n := |f|;
    forall i | 0 <= i < n
      ensures Product(q)[i] == Product(p)[i]
    {
      assert AddLow(Product(q), r)[i] == AddLow(Product(p), s)[i];
    }
    assert Product(q)[..n] == Product(p)[..n];
    LeadingDetermines(q, p);
    forall i | 0 <= i < 6
      ensures r[i] == s[i]
    {
      assert AddLow(Product(q), r)[n + i] == AddLow(Product(p), s)[n + i];
      AddCancels(r[i], s[i], Product(q)[n + i]);
    }
  }

  // ---- the division, a coefficient at a time

  /** The remainder of f(x) * x + e, given that of f(x). */
  function Next(r: seq<Element>, e: Element): seq<Element>
    requires |r| == 6
  {
    seq(6, j requires 0 <= j < 6 => Add(if j < 5 then r[j + 1] else e, Times(r[0], Low(j))))
  }

  lemma AddThrice(a: Element, b: Element, t: Element)
    ensures Add(Add(a, t), Add(b, t)) == Add(a, b)
  {
  }

  lemma NextDivides(f: seq<Element>, q: seq<Element>, r: seq<Element>, e: Element)
    requires Divides(f, q, r)
    ensures Divides(f + [e], q + [r[0]], Next(r, e))
  {
    var n, p := |f|, Product(q);
    var m, r' := Multiple(r[0]), Next(r, e);
    assert (q + [r[0]])[..n] == q;
    var p' := Product(q + [r[0]]);
    assert p' == AddLow(p + [NOUGHT], m);
    forall i | 0 <= i < n + 7
      ensures Padded(f + [e])[i] == AddLow(p', r')[i]
    {
      NextCoefficient(f, p, r, e, p', i);
    }
  }

  lemma NextCoefficient(f: seq<Element>, p: seq<Element>, r: seq<Element>, e: Element, p': seq<Element>, i: nat)
    requires |r| == 6 && |p| == |f| + 6 && Padded(f) == AddLow(p, r)
    requires p' == AddLow(p + [NOUGHT], Multiple(r[0])) && i < |f| + 7
    ensures Padded(f + [e])[i] == AddLow(p', Next(r, e))[i]
  {
    var n := |f|;
    if i < n + 6 {
      assert Padded(f + [e])[i] == Padded(f)[i] == AddLow(p, r)[i];
    }
    if i > n {
      var j := i - n - 1;
      AddThrice((p + [NOUGHT])[i], if j < 5 then r[j + 1] else e, Times(r[0], Low(j)));
      assert p'[i] == Add((p + [NOUGHT])[i], Times(r[0], Low(j)));
    }
  }

  // ---- the register

  /** The symbols of a register as coefficients. */
  function Unpack(c: Word): seq<Element> { seq(6, j requires 0 <= j < 6 => c[25 - 5 * j..30 - 5 * j]) }

  /** Digits to the base 32, highest first, as one number. */
  function Packed(d: seq<nat>): nat { if d == [] then 0 else 32 * Packed(d[..|d| - 1]) + d[|d| - 1] }

  lemma LowDigit(a: nat, w: nat, b: nat)
    requires w < 32 && b < 5
    ensures Bit(32 * a + w, b) == Bit(w, b)
  {
    var v := 32 * a + w;
    var v1, w1 := v / 2, w / 2;
    assert v1 == 16 * a + w1;
    var v2, w2 := v1 / 2, w1 / 2;
    assert v2 == 8 * a + w2;
    var v3, w3 := v2 / 2, w2 / 2;
    assert v3 == 4 * a + w3;
    var v4, w4 := v3 / 2, w3 / 2;
    assert v4 == 2 * a + w4;
    UnfoldBits(v, v1, v2, v3, v4);
    UnfoldBits(w, w1, w2, w3, w4);
  }

  /** The lowest bits of a number that is halved again and again. */
  lemma UnfoldBits(v: nat, v1: nat, v2: nat, v3: nat, v4: nat)
    requires v1 == v / 2 && v2 == v1 / 2 && v3 == v2 / 2 && v4 == v3 / 2
    ensures Bit(v, 0) == (v % 2 == 1) && Bit(v, 1) == (v1 % 2 == 1) && Bit(v, 2) == (v2 % 2 == 1)
    ensures Bit(v, 3) == (v3 % 2 == 1) && Bit(v, 4) == (v4 % 2 == 1)
  {
    assert Bit(v, 1) == Bit(v1, 0);
    assert Bit(v, 2) == Bit(v1, 1) == Bit(v2, 0);
    assert Bit(v, 3) == Bit(v1, 2) == Bit(v2, 1) == Bit(v3, 0);
    assert Bit(v, 4) == Bit(v1, 3) == Bit(v2, 2) == Bit(v3, 1) == Bit(v4, 0);
  }

  lemma SkipDigit(a: nat, w: nat, i: nat)
    requires w < 32
    ensures Bit(32 * a + w, 5 + i) == Bit(a, i)
  {
    var v := 32 * a + w;
    var h, k, l, m := v / 2, v / 4, v / 8, v / 16;
    assert h / 2 == k && k / 2 == l && l / 2 == m && m / 2 == a;
    assert Bit(v, 5 + i) == Bit(h, 4 + i) == Bit(k, 3 + i) == Bit(l, 2 + i) == Bit(m, 1 + i) == Bit(a, i);
  }

  /** The bits of a digit are found in the number, five for each digit behind it further up. */
  lemma {:induction false} PackedBit(d: seq<nat>, j: nat, b: nat)
    requires (forall i :: 0 <= i < |d| ==> d[i] < 32) && j < |d| && b < 5
    ensures Bit(Packed(d), 5 * (|d| - 1 - j) + b) == Bit(d[j], b)
    decreases |d|
  {
    var n := |d| - 1;
    var a, w := Packed(d[..n]), d[n];
    if j == n {
      LowDigit(a, w, b);
    } else {
      SkipDigit(a, w, 5 * (n - 1 - j) + b);
      PackedBit(d[..n], j, b);
    }
  }

  /** {2} times a number below 32. */
  function Twice(v: nat): (w: nat)
    requires v < 32
    ensures w < 32
  {
    if v < 16 then 2 * v else if v / 4 % 2 == 1 then 2 * v - 39 else 2 * v - 23
  }

  lemma DoubleIsTwice(v: nat)
    requires v < 32
    ensures Double(Of(v)) == Of(Twice(v))
  {
    var w := Twice(v);
    var v1, v2, v3, v4 := v / 2, v / 4, v / 8, v / 16;
    var w1, w2, w3, w4 := w / 2, w / 4, w / 8, w / 16;
    UnfoldBits(v, v1, v2, v3, v4);
    UnfoldBits(w, w1, w2, w3, w4);
    if v < 16 {
      assert w % 2 == 0 && w1 == v && w2 == v1 && w3 == v2 && w4 == v3 && v4 == 0;
    } else {
      assert v4 == 1 && w % 2 == 1;
      assert w2 == v1 - 8 - (if v2 % 2 == 1 then 2 else -2);
      assert w3 == v2 - 4 - (if v2 % 2 == 1 then 1 else -1);
      assert w4 == v3 - 2;
    }
  }

  /** The coefficients of {2}^n * (x^6 mod g(x)). */
  function Digits(n: nat): (d: seq<nat>)
    ensures |d| == 6 && forall j :: 0 <= j < 6 ==> d[j] < 32
  {
    if n == 0 then LOW else seq(6, j requires 0 <= j < 6 => Twice(Digits(n - 1)[j]))
  }

  lemma PackedSix(d: seq<nat>)
    requires |d| == 6
    ensures Packed(d) == ((((d[0] * 32 + d[1]) * 32 + d[2]) * 32 + d[3]) * 32 + d[4]) * 32 + d[5]
  {
    var e := d[..5];
    assert e[..4] == d[..4] && d[..4][..3] == d[..3] && d[..3][..2] == d[..2] && d[..2][..1] == d[..1] == [d[0]];
    assert [d[0]][..0] == [];
    assert Packed([d[0]]) == d[0];
    assert Packed(d[..2]) == 32 * Packed(d[..1]) + d[1];
    assert Packed(d[..3]) == 32 * Packed(d[..2]) + d[2];
    assert Packed(d[..4]) == 32 * Packed(d[..3]) + d[3];
    assert Packed(e) == 32 * Packed(d[..4]) + d[4];
  }

  lemma DigitsAre()
    ensures Digits(1) == [19, 5, 1, 3, 19, 13] && Digits(2) == [15, 10, 2, 6, 15, 26]
    ensures Digits(3) == [30, 20, 4, 12, 30, 29] && Digits(4) == [21, 1, 8, 24, 21, 19]
  {
    assert Digits(1) == [19, 5, 1, 3, 19, 13];
    assert Digits(2) == [15, 10, 2, 6, 15, 26];
    assert Digits(3) == [30, 20, 4, 12, 30, 29];
    assert Digits(4) == [21, 1, 8, 24, 21, 19];
  }

  /** The constants of the loop: x^6 modulo g(x), then each the one before with every symbol multiplied by {2}. */
  lemma Constants(n: nat)
    requires n < 5
    ensures GENERATORS[n] == Packed(Digits(n))
  {
    DigitsAre();
    PackedSix(Digits(n));
  }

  /** Bit b of coefficient j of the n-th constant. */
  lemma {:induction false} DoubledDigits(j: nat, n: nat)
    requires j < 6
    ensures Doubled(Low(j), n) == Of(Digits(n)[j])
  {
    if n > 0 {
      DoubledDigits(j, n - 1);
      DoubleIsTwice(Digits(n - 1)[j]);
    }
  }

  lemma GeneratorBit(n: nat, j: nat, b: nat)
    requires n < 5 && j < 6 && b < 5
    ensures Generator(n, 5 * (5 - j) + b) == Doubled(Low(j), n)[b]
  {
    Constants(n);
    PackedBit(Digits(n), j, b);
    DoubledDigits(j, n);
  }

  /** What the symbol leaving at the top brings back is its product with x^6 modulo g(x). */
  lemma {:induction false} ReducedIsTimes(c: Word, j: nat, b: nat, n: nat)
    requires j < 6 && b < 5 && n <= 5
    ensures Reduced(c, 5 * (5 - j) + b, n) == Terms(c[25..30], Low(j), n)[b]
  {
    if n > 0 {
      ReducedIsTimes(c, j, b, n - 1);
      GeneratorBit(n - 1, j, b);
    }
  }

  /** A step of the register is a step of the division. */
  lemma StepIsNext(c: Word, v: Word)
    requires FiveBits(v)
    ensures Unpack(Step(c, v)) == Next(Unpack(c), v[..5])
  {
    forall j | 0 <= j < 6
      ensures Unpack(Step(c, v))[j] == Next(Unpack(c), v[..5])[j]
    {
      forall b | 0 <= b < 5
        ensures Unpack(Step(c, v))[j][b] == Next(Unpack(c), v[..5])[j][b]
      {
        StepElement(c, v, j, b);
      }
    }
  }

  lemma NextBit(r: seq<Element>, e: Element, j: nat, b: nat)
    requires |r| == 6 && j < 6 && b < 5
    ensures Next(r, e)[j][b] == Plus((if j < 5 then r[j + 1] else e)[b], Times(r[0], Low(j))[b])
  {
  }

  lemma TopTimes(c: Word, j: nat, b: nat, i: nat)
    requires j < 6 && b < 5 && i == 5 * (5 - j) + b
    ensures Reduced(c, i, 5) == Times(Unpack(c)[0], Low(j))[b]
  {
    assert Unpack(c)[0] == c[25..30];
    ReducedIsTimes(c, j, b, |c[25..30]|);
  }

  lemma StepSide(c: Word, v: Word, j: nat, b: nat, i: nat)
    requires FiveBits(v) && j < 6 && b < 5 && i == 5 * (5 - j) + b
    ensures Unpack(Step(c, v))[j][b] == Plus((if j < 5 then Unpack(c)[j + 1] else v[..5])[b], Reduced(c, i, 5))
  {
    assert Unpack(Step(c, v))[j][b] == StepBit(c, v, i);
    if j < 5 {
      assert Unpack(c)[j + 1][b] == c[i - 5] && !v[i];
    }
  }

  lemma StepElement(c: Word, v: Word, j: nat, b: nat)
    requires FiveBits(v) && j < 6 && b < 5
    ensures Unpack(Step(c, v))[j][b] == Next(Unpack(c), v[..5])[j][b]
  {
    var i := 5 * (5 - j) + b;
    StepSide(c, v, j, b, i);
    TopTimes(c, j, b, i);
    NextBit(Unpack(c), v[..5], j, b);
  }

  lemma UnpackInjective(c: Word, d: Word)
    requires Unpack(c) == Unpack(d)
    ensures c == d
  {
    forall i | 0 <= i < 30
      ensures c[i] == d[i]
    {
      var j := 5 - i / 5;
      assert Unpack(c)[j] == Unpack(d)[j];
      assert Unpack(c)[j][i % 5] == c[i] && Unpack(d)[j][i % 5] == d[i];
    }
  }

  /** The empty register holds the remainder of the zero polynomial. */
  lemma NothingDivides(r: seq<Element>)
    requires r == Unpack(ZERO)
    ensures Divides([], [], r)
  {
    assert forall j :: 0 <= j < 6 ==> r[j] == NOUGHT;
    assert Add(NOUGHT, NOUGHT) == NOUGHT;
    assert AddLow(Product([]), r) == Padded([]);
  }

  /** If the register holds a remainder, it does after another symbol. */
  lemma StepDivides(f: seq<Element>, q: seq<Element>, c: Word, v: Word)
    requires Divides(f, q, Unpack(c)) && FiveBits(v)
    ensures Divides(f + [v[..5]], q + [Unpack(c)[0]], Unpack(Step(c, v)))
  {
    StepIsNext(c, v);
    NextDivides(f, q, Unpack(c), v[..5]);
  }
}
