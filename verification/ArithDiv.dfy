/** Bit length and shift-and-subtract division of limb arrays. */
module ArithDiv {
  import opened Powers
  import opened Limbs
  import opened Arith
  import opened ArithShift

  // ---- bit length

  /** n is the position of v's highest bit, plus one, or zero. */
  ghost predicate BitLength(v: nat, n: nat) {
    v < Pow(2, n) && (n > 0 ==> v >= Pow(2, n - 1))
  }

  lemma LimbBitLength(s: seq<Limb>, pos: nat, b: nat)
    requires pos < |s| && b < 32 && Pow(2, b) <= s[pos] < Pow(2, b + 1)
    requires forall j :: pos < j < |s| ==> s[j] == 0
    ensures BitLength(Val(s), 32 * pos + b + 1)
  {
    ValZeros(s, pos + 1, |s|);
    ValBound(s, pos);
    OffsetIsPow(1, pos, b);
    OffsetIsPow(1, pos, b + 1);
    AtMonotone(Pow(2, b), s[pos], pos);
    var x: int := s[pos];
    AtMonotone(x + 1, Pow(2, b + 1), pos);
    AtAdd(x, 1, pos);
  }

  /** Is bit b of x, below 2^(b+1), set? */
  lemma TopBit(x: nat, b: nat)
    requires x < Pow(2, b + 1)
    ensures x / Pow(2, b) % 2 == 1 <==> x >= Pow(2, b)
  {
    var p := Pow(2, b);
    if x < p {
      DivUnique(x, p, 0, x);
    } else {
      DivUnique(x, p, 1, x - p);
    }
  }

  method Bits(pn: array<Limb>) returns (n: nat)
    ensures BitLength(Num(pn), n) && n <= 32 * pn.Length
  {
    var pos := pn.Length - 1;
    while pos >= 0
      invariant -1 <= pos < pn.Length && forall j :: pos < j < pn.Length ==> pn[j] == 0
    {
      if pn[pos] != 0 {
        PowersOfTwo();
        var b := 31;
        while b > 0
          invariant 0 <= b <= 31 && pn[pos] < Pow(2, b + 1)
        {
          TopBit(pn[pos], b);
          if pn[pos] / Pow(2, b) % 2 == 1 {
            LimbBitLength(pn[..], pos, b);
            return 32 * pos + b + 1;
          }
          b := b - 1;
        }
        LimbBitLength(pn[..], pos, 0);
        return 32 * pos + 1;
      }
      pos := pos - 1;
    }
    ValZeros(pn[..], 0, pn.Length);
    return 0;
  }

  // ---- setting one bit of the quotient

  /** No bit below bit t is set. */
  ghost predicate ClearBelow(s: seq<Limb>, t: nat) {
    && (forall j :: 0 <= j < |s| && j < t / 32 ==> s[j] == 0)
    && (t / 32 < |s| ==> s[t / 32] % Pow(2, t % 32) == 0)
  }

  lemma MultipleOfHalf(x: nat, p: nat, r: nat)
    requires p > 0 && x % (2 * p) == 0 && x < (2 * p) * r
    ensures x % p == 0 && (x + p) % p == 0 && x + p < (2 * p) * r
  {
    var d := 2 * p;
    var q := x / d;
    assert x == q * d;
    assert (2 * q) * p == q * d && (2 * q + 1) * p == q * d + p && (q + 1) * d == q * d + d;
    DivMulExact(2 * q, p);
    DivMulExact(2 * q + 1, p);
    DivBound(x, d, r);
    MulMonotone(q + 1, r, d);
  }

  /** The limb in which bit t is to be set. */
  lemma LimbOfBit(s: seq<Limb>, t: nat)
    requires t / 32 < |s| && ClearBelow(s, t + 1)
    ensures var x, p := s[t / 32], Pow(2, t % 32);
      x % (2 * p) == 0 && x % p == 0 && (x + p) % p == 0 && x + p < B && Or(x, p) == x + p
  {
    var m, e := t / 32, t % 32;
    var x, p := s[m], Pow(2, e);
    if e == 31 {
      assert (t + 1) / 32 == m + 1;
      assert x == 0;
    } else {
      assert (t + 1) / 32 == m && (t + 1) % 32 == e + 1;
    }
    PowAdd(2, e + 1, 31 - e);
    PowersOfTwo();
    MultipleOfHalf(x, p, Pow(2, 31 - e));
    OrIsSum(x, p, e + 1);
  }

  lemma ClearNext(s: seq<Limb>, t: nat, x: Limb)
    requires t / 32 < |s| && ClearBelow(s, t + 1) && x % Pow(2, t % 32) == 0
    ensures ClearBelow(s[t / 32 := x], t)
  {
    assert (t + 1) / 32 >= t / 32;
  }

  lemma BitValue(s: seq<Limb>, t: nat, x: Limb)
    requires t / 32 < |s| && x == s[t / 32] + Pow(2, t % 32)
    ensures Val(s[t / 32 := x]) == Val(s) + Pow(2, t)
  {
    var m, e := t / 32, t % 32;
    ValUpdate(s, m, x);
    OffsetIsPow(1, m, e);
    assert 32 * m + e == t;
  }

  /** Sets bit t of the array, all of whose lower bits and itself are clear. */
  method SetBit(pn: array<Limb>, t: nat)
    requires t / 32 < pn.Length && ClearBelow(pn[..], t + 1)
    modifies pn
    ensures ClearBelow(pn[..], t) && Num(pn) == old(Num(pn)) + Pow(2, t)
  {
    ghost var s := pn[..];
    LimbOfBit(s, t);
    pn[t / 32] := Or(pn[t / 32], Pow(2, t % 32));
    ClearNext(s, t, pn[t / 32]);
    BitValue(s, t, pn[t / 32]);
  }

  lemma BitLeftClear(s: seq<Limb>, t: nat)
    requires t / 32 < |s| && ClearBelow(s, t + 1)
    ensures ClearBelow(s, t)
  {
    LimbOfBit(s, t);
    ClearNext(s, t, s[t / 32]);
    assert s[t / 32 := s[t / 32]] == s;
  }

  // ---- division

  /** q times d and the rest make n; the rest is below d times 2^t. */
  ghost predicate Dividing(n: nat, d: nat, q: nat, rest: nat, t: nat) {
    n == q * d + rest && rest < d * Pow(2, t)
  }

  /** One bit of the quotient. */
  lemma DividingNext(n: nat, d: nat, q: nat, rest: nat, t: nat, div: nat)
    requires Dividing(n, d, q, rest, t + 1) && div == d * Pow(2, t)
    ensures rest >= div ==> Dividing(n, d, q + Pow(2, t), rest - div, t)
    ensures rest < div ==> Dividing(n, d, q, rest, t)
  {
    var p := Pow(2, t);
    assert d * (2 * p) == 2 * (d * p);
    assert (q + p) * d == q * d + d * p;
  }

  lemma DividingDone(n: nat, d: nat, q: nat, rest: nat)
    requires Dividing(n, d, q, rest, 0)
    ensures d > 0 && q == n / d && rest == n % d
  {
    assert Pow(2, 0) == 1;
    DivUnique(n, d, q, rest);
  }

  /** Before the first bit: the divisor is aligned with the dividend and still fits. */
  lemma Aligned(n: nat, d: nat, nb: nat, db: nat, w: nat)
    requires BitLength(n, nb) && BitLength(d, db) && 0 < db <= nb <= 32 * w
    ensures Dividing(n, d, 0, n, nb - db + 1)
    ensures d * Pow(2, nb - db) < Base(w) && Wrap(d * Pow(2, nb - db), w) == d * Pow(2, nb - db)
  {
    var sh := nb - db;
    PowAdd(2, db, sh);
    PowAdd(2, db - 1, sh + 1);
    MulStrict(d, Pow(2, db), Pow(2, sh));
    MulMonotone(Pow(2, db - 1), d, Pow(2, sh + 1));
    PowMonotone(2, nb, 32 * w);
    BaseIsPow(w);
    var v := d * Pow(2, sh);
    DivUnique(v, Base(w), 0, v);
  }

  lemma Halved(d: nat, t: nat)
    requires t > 0
    ensures d * Pow(2, t) / Pow(2, 1) == d * Pow(2, t - 1)
  {
    assert Pow(2, 1) == 2;
    assert d * (2 * Pow(2, t - 1)) == 2 * (d * Pow(2, t - 1));
  }

  lemma WrapDifference(a: nat, b: nat, w: nat)
    requires b <= a < Base(w)
    ensures Wrap(a + Base(w) - b, w) == a - b
  {
    DivUnique(a + Base(w) - b, Base(w), 1, a - b);
  }

  lemma ShortDividend(n: nat, d: nat, nb: nat, db: nat)
    requires BitLength(n, nb) && BitLength(d, db) && nb < db
    ensures n < d && n / d == 0 && n % d == n
  {
    PowMonotone(2, nb, db - 1);
    DivUnique(n, d, 0, n);
  }

  /** Decides bit `shift` of the quotient, and halves the divisor. */
  method QuotientBit(pn: array<Limb>, num: array<Limb>, div: array<Limb>, shift: nat, ghost n: nat, ghost d: nat)
    requires pn.Length == num.Length == div.Length && pn != num && pn != div && num != div
    requires shift < 32 * pn.Length && ClearBelow(pn[..], shift + 1)
    requires Dividing(n, d, Num(pn), Num(num), shift + 1) && Num(div) == d * Pow(2, shift)
    modifies pn, num, div
    ensures ClearBelow(pn[..], shift) && Dividing(n, d, Num(pn), Num(num), shift)
    ensures shift > 0 ==> Num(div) == d * Pow(2, shift - 1)
  {
    DividingNext(n, d, Num(pn), Num(num), shift, Num(div));
    var c := CompareTo(num, div);
    if c >= 0 {
      ValBound(num[..], num.Length);
      WrapDifference(Num(num), Num(div), num.Length);
      Subtract(num, div);
      SetBit(pn, shift);
    } else {
      BitLeftClear(pn[..], shift);
    }
    if shift > 0 {
      Halved(d, shift);
    }
    ShiftRight(div, 1);
  }

  /** The loop of the division: num and div hold the dividend and the aligned divisor. */
  method QuotientBits(pn: array<Limb>, num: array<Limb>, div: array<Limb>, shift: nat, ghost n: nat, ghost d: nat)
    requires pn.Length == num.Length == div.Length && pn != num && pn != div && num != div
    requires shift < 32 * pn.Length && AllZero(pn)
    requires Dividing(n, d, 0, Num(num), shift + 1) && Num(div) == d * Pow(2, shift)
    modifies pn, num, div
    ensures Dividing(n, d, Num(pn), Num(num), 0)
  {
    ValZeros(pn[..], 0, pn.Length);
    ClearedBelow(pn[..], shift + 1);
    var i: int := shift;
    while i >= 0
      invariant -1 <= i < 32 * pn.Length
      invariant ClearBelow(pn[..], i + 1) && Dividing(n, d, Num(pn), Num(num), i + 1)
      invariant i >= 0 ==> Num(div) == d * Pow(2, i)
    {
      QuotientBit(pn, num, div, i, n, d);
      i := i - 1;
    }
  }

  lemma ClearedBelow(s: seq<Limb>, t: nat)
    requires forall j :: 0 <= j < |s| ==> s[j] == 0
    ensures ClearBelow(s, t)
  {
    DivMulExact(0, Pow(2, t % 32));
  }

  /**
   pn /= b. On a zero divisor the source throws, having already cleared pn. The second
   result is the array the source leaves the remainder in.
   */
  method Divide(pn: array<Limb>, b: array<Limb>) returns (ok: bool, num: array<Limb>)
    requires pn.Length == b.Length > 0
    modifies pn
    ensures ok <==> old(Num(b)) > 0
    ensures ok ==> Num(pn) == old(Num(pn)) / old(Num(b)) && Num(num) == old(Num(pn)) % old(Num(b))
    ensures !ok ==> Num(pn) == 0
    ensures fresh(num) && num.Length == pn.Length
  {
    ghost var n, d := Num(pn), Num(b);
    var div := Copy(b);
    num := Copy(pn);
    Clear(pn);
    var numBits := Bits(num);
    var divBits := Bits(div);
    if divBits == 0 {
      assert Pow(2, 0) == 1;
      return false, num;
    }
    ok := true;
    if divBits > numBits {
      ShortDividend(n, d, numBits, divBits);
      return;
    }
    var shift := numBits - divBits;
    Aligned(n, d, numBits, divBits, pn.Length);
    ShiftLeft(div, shift);
    QuotientBits(pn, num, div, shift, n, d);
    DividingDone(n, d, Num(pn), Num(num));
  }
}
