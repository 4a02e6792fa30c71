/**
 The compact form of a 256-bit target: one byte of size, a sign bit and 23 bits of
 mantissa. First on numbers, then as the code computes it on limbs.
 */
module Compact {
  import opened Powers
  import opened Limbs
  import opened Arith
  import opened ArithShift
  import opened ArithDiv

  // ---- on numbers

  function ByteLength(v: nat): nat {
    if v == 0 then 0 else 1 + ByteLength(v / 256)
  }

  lemma {:induction false} ByteLengthIs(v: nat)
    ensures v < Pow(256, ByteLength(v))
    ensures v > 0 ==> ByteLength(v) > 0 && Pow(256, ByteLength(v) - 1) <= v
  {
    if v > 0 {
      ByteLengthIs(v / 256);
    }
  }

  lemma ByteLengthUnique(v: nat, k: nat)
    requires v < Pow(256, k) && (k > 0 ==> Pow(256, k - 1) <= v)
    ensures ByteLength(v) == k
  {
    ByteLengthIs(v);
    var n := ByteLength(v);
    if n < k {
      PowMonotone(256, n, k - 1);
    } else if k < n {
      PowMonotone(256, k, n - 1);
    }
  }

  /** The three highest bytes, or the number moved up to be three bytes long. */
  function Top(v: nat): nat {
    var k := ByteLength(v);
    if k <= 3 then v * Pow(256, 3 - k) else v / Pow(256, k - 3)
  }

  lemma TopRange(v: nat)
    ensures Top(v) < 0x100_0000 && (v > 0 ==> Top(v) >= 0x1_0000) && (v == 0 ==> Top(v) == 0)
  {
    ByteLengthIs(v);
    var k := ByteLength(v);
    Pow256();
    if v == 0 {
    } else if k <= 3 {
      PowAdd(256, k, 3 - k);
      PowAdd(256, k - 1, 3 - k);
      MulStrict(v, Pow(256, k), Pow(256, 3 - k));
      MulMonotone(Pow(256, k - 1), v, Pow(256, 3 - k));
    } else {
      var d := Pow(256, k - 3);
      PowAdd(256, 3, k - 3);
      PowAdd(256, 2, k - 3);
      DivBound(v, d, 0x100_0000);
      DivAtLeast(v, d, 0x1_0000);
    }
  }

  lemma Pow256()
    ensures Pow(256, 0) == 1 && Pow(256, 1) == 256 && Pow(256, 2) == 0x1_0000 && Pow(256, 3) == 0x100_0000
  {
    assert Pow(256, 1) == 256 * Pow(256, 0);
    assert Pow(256, 2) == 256 * Pow(256, 1);
    assert Pow(256, 3) == 256 * Pow(256, 2);
  }

  lemma DivAtLeast(a: nat, d: nat, q: nat)
    requires d > 0 && q * d <= a
    ensures q <= a / d
  {
    var v := a / d;
    assert a == v * d + a % d && (v + 1) * d == v * d + d;
    if v < q {
      MulMonotone(v + 1, q, d);
    }
  }

  /** Mantissa and size of a number; a mantissa that would reach the sign bit loses a byte. */
  function MantissaOf(v: nat): nat { if Top(v) < 0x80_0000 then Top(v) else Top(v) / 256 }
  function SizeOf(v: nat): nat { if Top(v) < 0x80_0000 then ByteLength(v) else ByteLength(v) + 1 }

  function Encode(v: nat, negative: bool): nat {
    SizeOf(v) * 0x100_0000 + MantissaOf(v) + if negative && MantissaOf(v) != 0 then 0x80_0000 else 0
  }

  function Mantissa(c: nat): nat { c % 0x80_0000 }
  function Size(c: nat): nat { c / 0x100_0000 }
  predicate SignBit(c: nat) { c / 0x80_0000 % 2 == 1 }

  /** The number a compact form stands for, before it is cut to 256 bits. */
  function Magnitude(m: nat, e: nat): nat {
    if e <= 3 then m / Pow(256, 3 - e) else m * Pow(256, e - 3)
  }
  function Decode(c: nat): nat { Magnitude(Mantissa(c), Size(c)) }

  /** The flags as the code computes them, from the mantissa after any right shift. */
  function Word(c: nat): nat {
    if Size(c) <= 3 then Mantissa(c) / Pow(256, 3 - Size(c)) else Mantissa(c)
  }
  predicate IsNegative(c: nat) { Word(c) != 0 && SignBit(c) }
  predicate IsOverflow(c: nat) {
    Word(c) != 0 && (Size(c) > 34 || (Word(c) > 0xff && Size(c) > 33) || (Word(c) > 0xffff && Size(c) > 32))
  }

  const LIMIT: nat := Pow(256, 32)

  /** The overflow flag is set exactly when the number does not fit 256 bits. */
  lemma OverflowIsExact(c: nat)
    ensures IsOverflow(c) <==> Decode(c) >= LIMIT
  {
    var m, e := Mantissa(c), Size(c);
    Pow256();
    if e <= 3 {
      DivShrinks(m, Pow(256, 3 - e));
      PowMonotone(256, 3, 32);
    } else if e <= 32 {
      FitsBelow(m, e);
    } else {
      ReachesLimit(m, e, 32);
    }
  }

  /** Sizes from 33 on, where the smallest mantissa that overflows falls to one. */
  lemma ReachesLimit(m: nat, e: nat, n: nat)
    requires n >= 2 && e > n
    ensures m * Pow(256, e - 3) >= Pow(256, n) <==> m > 0 && (e > n + 2 || (m > 0xff && e > n + 1) || m > 0xffff)
  {
    Pow256();
    if e == n + 1 {
      PowAdd(256, 2, n - 2);
      Compare(m, 0x1_0000, Pow(256, n - 2));
    } else if e == n + 2 {
      PowAdd(256, 1, n - 1);
      Compare(m, 256, Pow(256, n - 1));
    } else {
      PowMonotone(256, n, e - 3);
      MulMonotone(1, if m > 0 then m else 1, Pow(256, e - 3));
    }
  }

  lemma FitsBelow(m: nat, e: nat)
    requires m < 0x100_0000 && 3 < e <= 32
    ensures m * Pow(256, e - 3) < LIMIT
  {
    Pow256();
    PowAdd(256, 3, e - 3);
    PowMonotone(256, e, 32);
    MulStrict(m, 0x100_0000, Pow(256, e - 3));
  }

  lemma Compare(m: nat, t: nat, d: nat)
    requires d > 0
    ensures m * d >= t * d <==> m >= t
  {
    if m < t {
      MulStrict(m, t, d);
    } else {
      MulMonotone(t, m, d);
    }
  }

  // ---- encoding and decoding

  lemma DivTwice(v: nat, d: nat)
    requires d > 0
    ensures v / d / 256 == v / (256 * d)
  {
    var q := v / d;
    var a, b := q / 256, q % 256;
    var r := v % d;
    assert v == q * d + r && q == a * 256 + b;
    assert (a * 256 + b) * d == a * (256 * d) + b * d;
    MulMonotone(b + 1, 256, d);
    assert (b + 1) * d == b * d + d;
    DivUnique(v, 256 * d, a, b * d + r);
  }

  /** The mantissa is the number moved up or cut down to its size. */
  lemma MantissaIs(v: nat)
    ensures var e := SizeOf(v);
      MantissaOf(v) == if e <= 3 then v * Pow(256, 3 - e) else v / Pow(256, e - 3)
  {
    var k := ByteLength(v);
    Pow256();
    if Top(v) >= 0x80_0000 {
      if k < 3 {
        var p := Pow(256, 2 - k);
        assert v * (256 * p) == 256 * (v * p);
      } else if k > 3 {
        DivTwice(v, Pow(256, k - 3));
      }
    }
  }

  /** The mantissa has no sign bit and, unless the number is zero, no more than a byte to spare. */
  lemma MantissaRange(v: nat)
    ensures MantissaOf(v) < 0x80_0000 && (v > 0 ==> MantissaOf(v) >= 0x8000) && (v == 0 ==> MantissaOf(v) == 0)
  {
    TopRange(v);
  }

  /** The fields of an encoding can be read back. */
  lemma FieldsOf(v: nat, negative: bool)
    ensures Mantissa(Encode(v, negative)) == MantissaOf(v) && Size(Encode(v, negative)) == SizeOf(v)
    ensures SignBit(Encode(v, negative)) <==> negative && v > 0
  {
    MantissaRange(v);
    Fields(MantissaOf(v), SizeOf(v), if negative && MantissaOf(v) != 0 then 1 else 0, Encode(v, negative));
  }

  lemma Fields(m: nat, e: nat, sign: nat, c: nat)
    requires m < 0x80_0000 && sign < 2 && c == e * 0x100_0000 + m + sign * 0x80_0000
    ensures Mantissa(c) == m && Size(c) == e && (SignBit(c) <==> sign == 1)
  {
    DivUnique(c, 0x80_0000, 2 * e + sign, m);
    DivUnique(c, 0x100_0000, e, m + sign * 0x80_0000);
  }

  lemma {:induction false} ByteLengthMonotone(u: nat, v: nat)
    requires u <= v
    ensures ByteLength(u) <= ByteLength(v)
  {
    if u > 0 {
      ByteLengthMonotone(u / 256, v / 256);
    }
  }

  /** A 256-bit number has at most 33 as its size, so that an encoding fits 32 bits. */
  lemma EncodingFits(v: nat, negative: bool)
    requires v < LIMIT
    ensures SizeOf(v) <= 33 && Encode(v, negative) < 0x1_0000_0000
  {
    ByteLengthIs(v);
    if ByteLength(v) > 32 {
      PowMonotone(256, 32, ByteLength(v) - 1);
    }
    MantissaRange(v);
  }

  /** Decoding an encoding loses less than one unit of the last mantissa place, and never gains. */
  lemma RoundsDown(v: nat, negative: bool)
    ensures var c := Encode(v, negative);
      Decode(c) <= v < Decode(c) + Pow(256, if Size(c) <= 3 then 0 else Size(c) - 3)
  {
    FieldsOf(v, negative);
    MantissaIs(v);
    var e := SizeOf(v);
    if e <= 3 {
      DivMulExact(v, Pow(256, 3 - e));
    } else {
      var d := Pow(256, e - 3);
      assert v == v / d * d + v % d;
    }
  }

  /** Decoding an encoding reports its sign, and no overflow. */
  lemma FlagsOf(v: nat, negative: bool)
    requires v < LIMIT
    ensures IsNegative(Encode(v, negative)) <==> negative && v > 0
    ensures !IsOverflow(Encode(v, negative))
  {
    var c := Encode(v, negative);
    FieldsOf(v, negative);
    MantissaIs(v);
    MantissaRange(v);
    RoundsDown(v, negative);
    OverflowIsExact(c);
    if SizeOf(v) <= 3 {
      DivMulExact(v, Pow(256, 3 - SizeOf(v)));
    }
  }

  /** A mantissa in range with a size above three encodes as itself. */
  lemma CanonicalStays(m: nat, e: nat)
    requires 0x8000 <= m < 0x80_0000 && e > 3
    ensures MantissaOf(Magnitude(m, e)) == m && SizeOf(Magnitude(m, e)) == e
  {
    Pow256();
    if m >= 0x1_0000 {
      LongMantissa(m, e, Pow(256, e - 3));
    } else {
      ShortMantissa(m, e, Pow(256, e - 3), Pow(256, e - 4));
    }
  }

  lemma LongMantissa(m: nat, e: nat, d: nat)
    requires 0x1_0000 <= m < 0x80_0000 && e > 3 && d == Pow(256, e - 3)
    ensures ByteLength(m * d) == e && Top(m * d) == m
  {
    Pow256();
    PowAdd(256, 3, e - 3);
    PowAdd(256, 2, e - 3);
    MulMonotone(0x1_0000, m, d);
    MulStrict(m, 0x100_0000, d);
    ByteLengthUnique(m * d, e);
    DivMulExact(m, d);
  }

  lemma ShortMantissa(m: nat, e: nat, d: nat, f: nat)
    requires 0x8000 <= m < 0x1_0000 && e > 3 && d == Pow(256, e - 3) && f == Pow(256, e - 4)
    ensures ByteLength(m * d) == e - 1 && Top(m * d) == m * 256
  {
    Pow256();
    PowAdd(256, 2, e - 3);
    PowAdd(256, 1, e - 3);
    MulMonotone(256, m, d);
    MulStrict(m, 0x1_0000, d);
    ByteLengthUnique(m * d, e - 1);
    assert d == 256 * f;
    MulAssociates(m, 256, f);
    DivMulExact(m * 256, f);
  }

  /** Encoding again what an encoding decodes to changes nothing. */
  lemma EncodingIsStable(v: nat)
    ensures Encode(Decode(Encode(v, false)), false) == Encode(v, false)
  {
    FieldsOf(v, false);
    MantissaIs(v);
    MantissaRange(v);
    if SizeOf(v) <= 3 {
      DivMulExact(v, Pow(256, 3 - SizeOf(v)));
    } else {
      CanonicalStays(MantissaOf(v), SizeOf(v));
    }
  }

  lemma DivMonotone(u: nat, v: nat, d: nat)
    requires u <= v && d > 0
    ensures u / d <= v / d
  {
    assert u == u / d * d + u % d;
    DivAtLeast(v, d, u / d);
  }

  /** Larger numbers never get smaller encodings. */
  lemma EncodingIsMonotone(u: nat, v: nat)
    requires u <= v
    ensures Encode(u, false) <= Encode(v, false)
  {
    ByteLengthMonotone(u, v);
    MantissaIs(u);
    MantissaIs(v);
    MantissaRange(u);
    MantissaRange(v);
    if SizeOf(u) == SizeOf(v) {
      SameSize(u, v, SizeOf(u));
    } else if SizeOf(u) > SizeOf(v) {
      TopMonotone(u, v);
    }
  }

  lemma SameSize(u: nat, v: nat, e: nat)
    requires u <= v && e == SizeOf(u) == SizeOf(v)
    ensures MantissaOf(u) <= MantissaOf(v)
  {
    MantissaIs(u);
    MantissaIs(v);
    if e <= 3 {
      MulMonotone(u, v, Pow(256, 3 - e));
    } else {
      DivMonotone(u, v, Pow(256, e - 3));
    }
  }

  lemma TopMonotone(u: nat, v: nat)
    requires u <= v && ByteLength(u) == ByteLength(v)
    ensures Top(u) <= Top(v)
  {
    var k := ByteLength(u);
    if k <= 3 {
      MulMonotone(u, v, Pow(256, 3 - k));
    } else {
      DivMonotone(u, v, Pow(256, k - 3));
    }
  }

  // ---- on limbs

  lemma BytesAsBits(j: nat)
    ensures Pow(2, 8 * j) == Pow(256, j)
  {
    PowersOfTwo();
    PowMul(2, 8, j, 8 * j);
  }

  lemma LimitIsSpan()
    ensures Base(8) == LIMIT
  {
    BaseIsPow(8);
    BytesAsBits(32);
  }

  /** Setting a bit that is clear adds it. */
  lemma {:induction false} OrSetsBit(x: nat, s: nat, p: nat)
    requires p == Pow(2, s) && x / p % 2 == 0
    ensures Or(x, p) == x + p
    decreases s
  {
    if s == 0 {
      OrOne(x);
    } else {
      var h := Pow(2, s - 1);
      DivSwap(x, h);
      OrSetsBit(x / 2, s - 1, h);
      OrDouble(x, h);
    }
  }

  lemma OrOne(x: nat)
    requires x % 2 == 0
    ensures Or(x, 1) == x + 1
  {
    OrZero(x / 2);
    assert Or(x, 1) == 1 + 2 * Or(x / 2, 0);
  }

  lemma OrDouble(x: nat, h: nat)
    requires h > 0
    ensures Or(x, 2 * h) == x % 2 + 2 * Or(x / 2, h)
  {
  }

  lemma DivSwap(x: nat, p: nat)
    requires p > 0
    ensures x / (2 * p) == x / 2 / p
  {
    var q := x / 2;
    var a, b := q / p, q % p;
    assert x == 2 * (a * p + b) + x % 2;
    assert 2 * (a * p + b) == a * (2 * p) + 2 * b;
    DivUnique(x, 2 * p, a, 2 * b + x % 2);
  }

  /** pn = b for a 64-bit b. */
  method Assign64(pn: array<Limb>, b: nat)
    requires pn.Length >= 2 && b <= 0xffff_ffff_ffff_ffff
    modifies pn
    ensures Num(pn) == b
  {
    pn[0] := Low(b);
    pn[1] := High(b);
    for i := 2 to pn.Length
      invariant pn[0] == Low(b) && pn[1] == High(b)
      invariant forall j :: 2 <= j < i ==> pn[j] == 0
    {
      pn[i] := 0;
    }
    ValZeros(pn[..], 2, pn.Length);
    Low64(pn[..]);
  }

  /** The number modulo 2^64. */
  method GetLow64(pn: array<Limb>) returns (r: nat)
    requires pn.Length >= 2
    ensures r == Wrap(Num(pn), 2)
    ensures Num(pn) <= 0xffff_ffff_ffff_ffff ==> r == Num(pn)
  {
    PowersOfTwo();
    DivMulExact(pn[1], B);
    OrIsSum(pn[1] * B, pn[0], 32);
    r := Or(pn[0], pn[1] * B);
    LowIsMod(pn[..]);
  }

  lemma LowIsMod(s: seq<Limb>)
    requires |s| >= 2
    ensures s[0] + B * s[1] == Wrap(Val(s), 2)
    ensures Val(s) < B * B ==> s[0] + B * s[1] == Val(s)
  {
    Low64(s);
    var q := Above(s, 2, |s|);
    ValBound(s, 2);
    AtTimes(q, 2);
    ModOf(Val(s), Base(2), ValTo(s, 2), q);
    if Val(s) < B * B {
      ValZeros(s, 2, |s|);
    }
  }

  method SetCompact(pn: array<Limb>, nCompact: nat) returns (negative: bool, overflow: bool)
    requires pn.Length == 8 && nCompact <= 0xffff_ffff
    modifies pn
    ensures Num(pn) == Wrap(Decode(nCompact), 8)
    ensures negative == IsNegative(nCompact) && overflow == IsOverflow(nCompact)
  {
    var nSize := nCompact / 0x100_0000;
    var nWord := nCompact % 0x80_0000;
    ghost var m := nWord;
    if nSize <= 3 {
      BytesAsBits(3 - nSize);
      DivShrinks(nWord, Pow(256, 3 - nSize));
      nWord := nWord / Pow(2, 8 * (3 - nSize));
      Assign64(pn, nWord);
      SmallWraps(nWord);
    } else {
      Assign64(pn, nWord);
      BytesAsBits(nSize - 3);
      ShiftLeft(pn, 8 * (nSize - 3));
    }
    negative := nWord != 0 && nCompact / 0x80_0000 % 2 == 1;
    overflow := nWord != 0 && (nSize > 34 || (nWord > 0xff && nSize > 33) || (nWord > 0xffff && nSize > 32));
  }

  lemma SmallWraps(v: nat)
    requires v <= 0xffff_ffff_ffff_ffff
    ensures Wrap(v, 8) == v
  {
    AtLow(1);
    BaseMonotone(2, 8);
    DivUnique(v, Base(8), 0, v);
  }

  /** The number of bytes follows from the number of bits. */
  lemma BytesFromBits(v: nat, n: nat)
    requires BitLength(v, n)
    ensures ByteLength(v) == (n + 7) / 8
  {
    var k := (n + 7) / 8;
    BytesAsBits(k);
    PowMonotone(2, n, 8 * k);
    if k > 0 {
      BytesAsBits(k - 1);
      PowMonotone(2, 8 * (k - 1), n - 1);
    }
    ByteLengthUnique(v, k);
  }

  /** The three top bytes by shifts of the number. */
  lemma TopAsBits(v: nat)
    ensures var k := ByteLength(v);
      && Top(v) < 0x100_0000
      && (k <= 3 ==> v < 0x100_0000 && Top(v) == v * Pow(2, 8 * (3 - k)))
      && (k > 3 ==> Top(v) == v / Pow(2, 8 * (k - 3)))
  {
    var k := ByteLength(v);
    TopRange(v);
    ByteLengthIs(v);
    if k <= 3 {
      Pow256();
      PowMonotone(256, k, 3);
      BytesAsBits(3 - k);
    } else {
      BytesAsBits(k - 3);
    }
  }

  /** The three top bytes, as the source reads them off the limbs. */
  method TopBytes(pn: array<Limb>, nSize: nat) returns (t: nat)
    requires pn.Length == 8 && nSize == ByteLength(Num(pn))
    ensures t == Top(Num(pn))
  {
    TopAsBits(Num(pn));
    if nSize <= 3 {
      var low := GetLow64(pn);
      t := low * Pow(2, 8 * (3 - nSize)) % B;
    } else {
      var bn := Copy(pn);
      ShiftRight(bn, 8 * (nSize - 3));
      t := GetLow64(bn);
    }
  }

  /** The size byte and the sign are joined on by bits that are still clear. */
  lemma JoinFields(m: nat, e: nat)
    requires m < 0x80_0000
    ensures Or(m, e * 0x100_0000) == e * 0x100_0000 + m
    ensures Or(e * 0x100_0000 + m, 0x80_0000) == e * 0x100_0000 + m + 0x80_0000
  {
    PowersOfTwo();
    DivMulExact(e, 0x100_0000);
    OrIsSum(e * 0x100_0000, m, 24);
    DivUnique(e * 0x100_0000 + m, 0x80_0000, 2 * e, m);
    OrSetsBit(e * 0x100_0000 + m, 23, 0x80_0000);
  }

  /** A mantissa that reaches the sign bit loses its lowest byte. */
  method Normalize(t: nat, k: nat) returns (m: nat, e: nat)
    requires t < 0x100_0000
    ensures m < 0x80_0000
    ensures if t < 0x80_0000 then m == t && e == k else m == t / 256 && e == k + 1
  {
    m, e := t, k;
    if t / 0x80_0000 % 2 == 1 {
      m, e := t / 256, k + 1;
    }
  }

  method Join(m: nat, e: nat, negative: bool) returns (c: nat)
    requires m < 0x80_0000
    ensures c == e * 0x100_0000 + m + if negative && m != 0 then 0x80_0000 else 0
  {
    JoinFields(m, e);
    Fields(m, e, 0, e * 0x100_0000 + m);
    c := Or(m, e * 0x100_0000);
    if negative && c % 0x80_0000 != 0 {
      c := Or(c, 0x80_0000);
    }
  }

  method GetCompact(pn: array<Limb>, fNegative: bool) returns (nCompact: nat)
    requires pn.Length == 8
    ensures nCompact == Encode(Num(pn), fNegative) && nCompact <= 0xffff_ffff
  {
    ghost var v := Num(pn);
    var bits := Bits(pn);
    BytesFromBits(v, bits);
    var nSize := (bits + 7) / 8;
    nCompact := TopBytes(pn, nSize);
    TopRange(v);
    nCompact, nSize := Normalize(nCompact, nSize);
    SpanFits(pn[..], fNegative);
    assert nCompact < 0x80_0000 && nSize < 256;
    nCompact := Join(nCompact, nSize, fNegative);
  }

  lemma SpanFits(s: seq<Limb>, negative: bool)
    requires |s| == 8
    ensures SizeOf(Val(s)) < 256 && Encode(Val(s), negative) <= 0xffff_ffff
  {
    ValBound(s, 8);
    LimitIsSpan();
    EncodingFits(Val(s), negative);
  }
}
