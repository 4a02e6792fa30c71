/**
 The Bech32 checksum (BIP 173, section "Bech32", "Checksum"): a 30-bit register, modelled
 as its bits, into which symbols are shifted, with the generator's multiples added in.
 */
module Bech32Model {
  import opened Powers

  /** Thirty bits, the lowest first. */
  type Word = w: seq<bool> | |w| == 30 witness seq(30, _ => false)

  predicate Bit(v: nat, i: nat) {
    if i == 0 then v % 2 == 1 else Bit(v / 2, i - 1)
  }

  const GENERATORS: seq<nat> := [0x3b6a57b2, 0x26508e6d, 0x1ea119fa, 0x3d4233dd, 0x2a1462b3]

  /** Bit i of the generator's n-th multiple. */
  predicate Generator(n: nat, i: nat)
    requires n < 5
  {
    Bit(GENERATORS[n], i)
  }

  const ZERO: Word := seq(30, _ => false)

  /** A byte as a word. */
  function ByteWord(v: nat): Word { seq(30, i requires 0 <= i < 30 => i < 8 && Bit(v, i)) }

  function Xor(a: Word, b: Word): Word { seq(30, i requires 0 <= i < 30 => a[i] != b[i]) }

  predicate Plus(a: bool, b: bool) { a != b }

  /** Bit i of what the lowest n bits of the symbol that leaves at the top bring back in. */
  predicate Reduced(c: Word, i: nat, n: nat)
    requires n <= 5
  {
    n > 0 && Plus(Reduced(c, i, n - 1), c[24 + n] && Generator(n - 1, i))
  }

  /** Bit i after multiplying by x, adding v and reducing by the generator. */
  predicate StepBit(c: Word, v: Word, i: nat)
    requires i < 30
  {
    Plus(Plus(i >= 5 && c[i - 5], v[i]), Reduced(c, i, 5))
  }

  function Step(c: Word, v: Word): Word { seq(30, i requires 0 <= i < 30 => StepBit(c, v, i)) }

  /** The register after the first n symbols. */
  function Fold(c: Word, v: seq<Word>, n: nat): Word
    requires n <= |v|
  {
    if n == 0 then c else Step(Fold(c, v, n - 1), v[n - 1])
  }

  // ---- the step is linear and one-to-one

  lemma SelectLinear(r: bool, s: bool, a: bool, b: bool, g: bool)
    ensures Plus(Plus(r, s), Plus(a, b) && g) == Plus(Plus(r, a && g), Plus(s, b && g))
  {
  }

  lemma {:induction false} ReducedLinear(c: Word, d: Word, i: nat, n: nat)
    requires n <= 5
    ensures Reduced(Xor(c, d), i, n) == Plus(Reduced(c, i, n), Reduced(d, i, n))
  {
    if n > 0 {
      ReducedLinear(c, d, i, n - 1);
      SelectLinear(Reduced(c, i, n - 1), Reduced(d, i, n - 1), c[24 + n], d[24 + n], Generator(n - 1, i));
    }
  }

  lemma Regroup(a: bool, b: bool, v: bool, w: bool, r: bool, s: bool)
    ensures Plus(Plus(Plus(a, b), Plus(v, w)), Plus(r, s)) == Plus(Plus(Plus(a, v), r), Plus(Plus(b, w), s))
  {
  }

  lemma StepBitLinear(c: Word, d: Word, v: Word, w: Word, i: nat)
    requires i < 30
    ensures StepBit(Xor(c, d), Xor(v, w), i) == Plus(StepBit(c, v, i), StepBit(d, w, i))
  {
    ReducedLinear(c, d, i, 5);
    Regroup(i >= 5 && c[i - 5], i >= 5 && d[i - 5], v[i], w[i], Reduced(c, i, 5), Reduced(d, i, 5));
  }

  /** The step respects sums. */
  lemma StepLinear(c: Word, d: Word, v: Word, w: Word)
    ensures Step(Xor(c, d), Xor(v, w)) == Xor(Step(c, v), Step(d, w))
  {
    var l, r := Step(Xor(c, d), Xor(v, w)), Xor(Step(c, v), Step(d, w));
    forall i | 0 <= i < 30
      ensures l[i] == r[i]
    {
      StepBitLinear(c, d, v, w, i);
    }
  }

  lemma LowGeneratorBits()
    ensures !Generator(0, 0) && Generator(0, 1) && !Generator(0, 2) && !Generator(0, 3) && Generator(0, 4)
    ensures Generator(1, 0) && !Generator(1, 1) && Generator(1, 2) && Generator(1, 3) && !Generator(1, 4)
    ensures !Generator(2, 0) && Generator(2, 1) && !Generator(2, 2) && Generator(2, 3) && Generator(2, 4)
    ensures Generator(3, 0) && !Generator(3, 1) && Generator(3, 2) && Generator(3, 3) && Generator(3, 4)
    ensures Generator(4, 0) && Generator(4, 1) && !Generator(4, 2) && !Generator(4, 3) && Generator(4, 4)
  {
  }

  lemma ReducedIs(c: Word, i: nat)
    ensures Reduced(c, i, 5) ==
      Plus(Plus(Plus(Plus(c[25] && Generator(0, i), c[26] && Generator(1, i)), c[27] && Generator(2, i)),
                c[28] && Generator(3, i)), c[29] && Generator(4, i))
  {
    assert Reduced(c, i, 1) == (c[25] && Generator(0, i));
    assert Reduced(c, i, 2) == Plus(Reduced(c, i, 1), c[26] && Generator(1, i));
    assert Reduced(c, i, 3) == Plus(Reduced(c, i, 2), c[27] && Generator(2, i));
    assert Reduced(c, i, 4) == Plus(Reduced(c, i, 3), c[28] && Generator(3, i));
  }

  /** Only zero is stepped to zero: what leaves at the top shows in the lowest symbol. */
  lemma StepKernel(c: Word)
    requires Step(c, ZERO) == ZERO
    ensures c == ZERO
  {
    LowGeneratorBits();
    var s := Step(c, ZERO);
    assert !s[0] && !s[1] && !s[2] && !s[3] && !s[4];
    ReducedIs(c, 0);
    ReducedIs(c, 1);
    ReducedIs(c, 2);
    ReducedIs(c, 3);
    ReducedIs(c, 4);
    assert !c[25] && !c[26] && !c[27] && !c[28] && !c[29];
    forall i | 0 <= i < 25
      ensures !c[i]
    {
      NothingReduced(c, i + 5, 5);
      assert !s[i + 5];
    }
  }

  // ---- folding

  function XorAll(v: seq<Word>, w: seq<Word>): seq<Word>
    requires |v| == |w|
  {
    seq(|v|, i requires 0 <= i < |v| => Xor(v[i], w[i]))
  }

  lemma {:induction false} FoldLinear(c: Word, d: Word, v: seq<Word>, w: seq<Word>, n: nat)
    requires n <= |v| == |w|
    ensures Fold(Xor(c, d), XorAll(v, w), n) == Xor(Fold(c, v, n), Fold(d, w, n))
  {
    if n > 0 {
      FoldLinear(c, d, v, w, n - 1);
      StepLinear(Fold(c, v, n - 1), Fold(d, w, n - 1), v[n - 1], w[n - 1]);
    }
  }

  lemma {:induction false} FoldPrefix(c: Word, v: seq<Word>, w: seq<Word>, n: nat)
    requires n <= |v| && n <= |w| && forall i :: 0 <= i < n ==> v[i] == w[i]
    ensures Fold(c, v, n) == Fold(c, w, n)
  {
    if n > 0 {
      FoldPrefix(c, v, w, n - 1);
    }
  }

  lemma {:induction false} FoldSplit(c: Word, v: seq<Word>, k: nat, w: seq<Word>, n: nat)
    requires k + n <= |v| && w == v[k..]
    ensures Fold(c, v, k + n) == Fold(Fold(c, v, k), w, n)
  {
    if n > 0 {
      FoldSplit(c, v, k, w, n - 1);
    }
  }

  lemma XorZero(a: Word, b: Word)
    ensures Xor(a, b) == ZERO <==> a == b
    ensures Xor(a, ZERO) == a && Xor(Xor(a, b), b) == a
  {
    var x := Xor(a, b);
    if x == ZERO {
      forall i | 0 <= i < 30 ensures a[i] == b[i] { assert !x[i]; }
    }
    assert Xor(x, b) == a;
    assert Xor(a, ZERO) == a;
  }

  /** Symbols in place of zeros at the end add themselves to the register. */
  lemma FoldTail(c: Word, a: seq<Word>, b: seq<Word>, k: nat, z: seq<Word>)
    requires |a| == |b| == k + |z| && forall i :: 0 <= i < k ==> a[i] == b[i]
    requires a[k..] == z && b[k..] == seq(|z|, _ => ZERO)
    ensures Fold(c, a, |a|) == Xor(Fold(c, b, |b|), Fold(ZERO, z, |z|))
  {
    var n, y := |z|, b[k..];
    FoldPrefix(c, a, b, k);
    var r := Fold(c, b, k);
    FoldSplit(c, a, k, z, n);
    FoldSplit(c, b, k, y, n);
    TailSum(r, y, z, n);
  }

  lemma TailSum(r: Word, y: seq<Word>, z: seq<Word>, n: nat)
    requires n == |z| == |y| && y == seq(n, _ => ZERO)
    ensures Fold(r, z, n) == Xor(Fold(r, y, n), Fold(ZERO, z, n))
  {
    XorZero(r, ZERO);
    ZerosAdd(z, y, z);
    FoldSum(r, ZERO, r, y, z, z, n);
  }

  lemma ZerosAdd(x: seq<Word>, y: seq<Word>, z: seq<Word>)
    requires |x| == |y| == |z| && forall i :: 0 <= i < |z| ==> x[i] == z[i] && y[i] == ZERO
    ensures x == XorAll(y, z)
  {
    forall i | 0 <= i < |z|
      ensures x[i] == XorAll(y, z)[i]
    {
      XorWithZero(z[i]);
    }
  }

  lemma FoldSum(c: Word, d: Word, e: Word, v: seq<Word>, w: seq<Word>, u: seq<Word>, n: nat)
    requires n <= |v| == |w| && e == Xor(c, d) && u == XorAll(v, w)
    ensures Fold(e, u, n) == Xor(Fold(c, v, n), Fold(d, w, n))
  {
    FoldLinear(c, d, v, w, n);
  }

  lemma XorWithZero(z: Word)
    ensures Xor(ZERO, z) == z
  {
  }

  lemma XorTwice(m: Word, o: Word)
    ensures Xor(m, Xor(m, o)) == o
  {
  }

  /** A difference in the register is never lost by shifting in the same symbol. */
  lemma StepKeepsDifference(c: Word, d: Word, v: Word)
    requires c != d
    ensures Step(c, v) != Step(d, v)
  {
    StepLinear(c, d, v, v);
    XorZero(v, v);
    XorZero(Step(c, v), Step(d, v));
    XorZero(c, d);
    if Step(c, v) == Step(d, v) {
      StepKernel(Xor(c, d));
    }
  }

  lemma {:induction false} FoldKeepsDifference(c: Word, d: Word, v: seq<Word>, w: seq<Word>, k: nat, n: nat)
    requires k <= n <= |v| == |w| && Fold(c, v, k) != Fold(d, w, k) && forall i :: k <= i < n ==> v[i] == w[i]
    ensures Fold(c, v, n) != Fold(d, w, n)
  {
    if k < n {
      FoldKeepsDifference(c, d, v, w, k, n - 1);
      StepKeepsDifference(Fold(c, v, n - 1), Fold(d, w, n - 1), v[n - 1]);
    }
  }

  /** Changing a single symbol, in a list of any length, changes the register. */
  lemma SingleChangeShows(v: seq<Word>, w: seq<Word>, c: Word, p: nat)
    requires p < |v| == |w| && v[p] != w[p] && forall i :: 0 <= i < |v| && i != p ==> v[i] == w[i]
    ensures Fold(c, v, |v|) != Fold(c, w, |w|)
  {
    FoldPrefix(c, v, w, p);
    var r := Fold(c, v, p);
    StepLinear(r, r, v[p], w[p]);
    XorZero(r, r);
    XorZero(v[p], w[p]);
    XorZero(Step(r, v[p]), Step(r, w[p]));
    StepOfZero(Xor(v[p], w[p]));
    FoldKeepsDifference(c, c, v, w, p + 1, |v|);
  }

  lemma StepOfZero(v: Word)
    ensures Step(ZERO, v) == v
  {
    forall i | 0 <= i < 30
      ensures Step(ZERO, v)[i] == v[i]
    {
      NothingReduced(ZERO, i, 5);
    }
  }

  lemma {:induction false} NothingReduced(c: Word, i: nat, n: nat)
    requires n <= 5 && !c[25] && !c[26] && !c[27] && !c[28] && !c[29]
    ensures !Reduced(c, i, n)
  {
    if n > 0 {
      NothingReduced(c, i, n - 1);
    }
  }

  // ---- six symbols fill the register

  predicate FiveBits(w: Word) { forall j :: 5 <= j < 30 ==> !w[j] }

  predicate PackedAt(w: seq<Word>, n: nat, f: Word, j: nat)
    requires n <= 6 && n <= |w| && j < 30
  {
    f[j] == (j < 5 * n && w[n - 1 - j / 5][j % 5])
  }

  /** Up to six five-bit symbols shifted into an empty register just line up. */
  lemma {:induction false} PackedBits(w: seq<Word>, n: nat)
    requires n <= 6 && n <= |w| && forall k :: 0 <= k < n ==> FiveBits(w[k])
    ensures forall j :: 0 <= j < 30 ==> PackedAt(w, n, Fold(ZERO, w, n), j)
  {
    if n > 0 {
      PackedBits(w, n - 1);
      var f := Fold(ZERO, w, n - 1);
      assert PackedAt(w, n - 1, f, 25) && PackedAt(w, n - 1, f, 26) && PackedAt(w, n - 1, f, 27)
        && PackedAt(w, n - 1, f, 28) && PackedAt(w, n - 1, f, 29);
      forall j | 0 <= j < 30
        ensures PackedAt(w, n, Fold(ZERO, w, n), j)
      {
        PackedNext(w, n, f, j);
      }
    }
  }

  lemma PackedNext(w: seq<Word>, n: nat, f: Word, j: nat)
    requires 0 < n <= 6 && n <= |w| && j < 30 && FiveBits(w[n - 1])
    requires !f[25] && !f[26] && !f[27] && !f[28] && !f[29] && (j >= 5 ==> PackedAt(w, n - 1, f, j - 5))
    ensures PackedAt(w, n, Step(f, w[n - 1]), j)
  {
    NothingReduced(f, j, 5);
    if j >= 5 {
      assert (j - 5) / 5 == j / 5 - 1 && (j - 5) % 5 == j % 5;
    }
  }

  /** Any change within six consecutive five-bit symbols changes the register. */
  lemma BurstShows(c: Word, v: seq<Word>, w: seq<Word>, p: nat, n: nat, q: nat)
    requires p + n <= |v| == |w| && n <= 6 && p <= q < p + n && v[q] != w[q]
    requires forall i :: 0 <= i < |v| && !(p <= i < p + n) ==> v[i] == w[i]
    requires forall i :: p <= i < p + n ==> FiveBits(v[i]) && FiveBits(w[i])
    ensures Fold(c, v, |v|) != Fold(c, w, |w|)
  {
    FoldPrefix(c, v, w, p);
    var r := Fold(c, v, p);
    var x, y := v[p..], w[p..];
    FoldSplit(c, v, p, x, n);
    FoldSplit(c, w, p, y, n);
    FoldLinear(r, r, x, y, n);
    XorZero(r, r);
    WindowDiffers(x, y, q - p, n);
    XorZero(Fold(r, x, n), Fold(r, y, n));
    FoldKeepsDifference(c, c, v, w, p + n, |v|);
  }

  lemma WindowDiffers(x: seq<Word>, y: seq<Word>, q: nat, n: nat)
    requires q < n <= 6 && n <= |x| == |y| && x[q] != y[q]
    requires forall i :: 0 <= i < n ==> FiveBits(x[i]) && FiveBits(y[i])
    ensures Fold(ZERO, XorAll(x, y), n) != ZERO
  {
    var d := XorAll(x, y);
    assert exists b :: 0 <= b < 30 && x[q][b] != y[q][b];
    var b :| 0 <= b < 30 && x[q][b] != y[q][b];
    assert d[q][b] && b < 5;
    var j := 5 * (n - 1 - q) + b;
    PackedBits(d, n);
    assert PackedAt(d, n, Fold(ZERO, d, n), j);
    assert j / 5 == n - 1 - q && j % 5 == b;
  }

  // ---- bits and bytes

  function BitValue(b: bool): nat { if b then 1 else 0 }

  /** The five bits from position k on, as a number. */
  function Group(c: Word, k: nat): (v: nat)
    requires k + 5 <= 30
    ensures v < 32
  {
    BitValue(c[k]) + 2 * BitValue(c[k + 1]) + 4 * BitValue(c[k + 2]) + 8 * BitValue(c[k + 3]) + 16 * BitValue(c[k + 4])
  }

  lemma BitsOf(v: nat)
    ensures Bit(v, 0) == (v % 2 == 1) && Bit(v, 1) == (v / 2 % 2 == 1) && Bit(v, 2) == (v / 4 % 2 == 1)
    ensures Bit(v, 3) == (v / 8 % 2 == 1) && Bit(v, 4) == (v / 16 % 2 == 1) && Bit(v, 5) == (v / 32 % 2 == 1)
    ensures Bit(v, 6) == (v / 64 % 2 == 1) && Bit(v, 7) == (v / 128 % 2 == 1)
  {
    var a, b, c := v / 2, v / 4, v / 8;
    var d, e, f, g := v / 16, v / 32, v / 64, v / 128;
    assert a / 2 == b && b / 2 == c && c / 2 == d && d / 2 == e && e / 2 == f && f / 2 == g;
    assert Bit(v, 1) == Bit(a, 0);
    assert Bit(v, 2) == Bit(a, 1) == Bit(b, 0);
    assert Bit(v, 3) == Bit(a, 2) == Bit(b, 1) == Bit(c, 0);
    assert Bit(v, 4) == Bit(a, 3) == Bit(b, 2) == Bit(c, 1) == Bit(d, 0);
    assert Bit(v, 5) == Bit(a, 4) == Bit(b, 3) == Bit(c, 2) == Bit(d, 1) == Bit(e, 0);
    assert Bit(v, 6) == Bit(a, 5) == Bit(b, 4) == Bit(c, 3) == Bit(d, 2) == Bit(e, 1) == Bit(f, 0);
    assert Bit(v, 7) == Bit(a, 6) == Bit(b, 5) == Bit(c, 4) == Bit(d, 3) == Bit(e, 2) == Bit(f, 1) == Bit(g, 0);
  }

  lemma GroupBits(c: Word, k: nat)
    requires k + 5 <= 30
    ensures FiveBits(ByteWord(Group(c, k)))
    ensures forall j :: 0 <= j < 5 ==> ByteWord(Group(c, k))[j] == c[k + j]
  {
    var r4 := BitValue(c[k + 4]);
    var r3 := BitValue(c[k + 3]) + 2 * r4;
    var r2 := BitValue(c[k + 2]) + 2 * r3;
    var r1 := BitValue(c[k + 1]) + 2 * r2;
    var v := Group(c, k);
    assert v == BitValue(c[k]) + 2 * r1;
    assert Bit(r4, 0) == c[k + 4];
    LowBit(c[k + 3], r3, r4);
    LowBit(c[k + 2], r2, r3);
    LowBit(c[k + 1], r1, r2);
    LowBit(c[k], v, r1);
    assert Bit(v, 1) == Bit(r1, 0) && Bit(v, 2) == Bit(r1, 1) == Bit(r2, 0);
    assert Bit(v, 3) == Bit(r1, 2) == Bit(r2, 1) == Bit(r3, 0);
    assert Bit(v, 4) == Bit(r1, 3) == Bit(r2, 2) == Bit(r3, 1) == Bit(r4, 0);
    FiveBitByte(v);
  }

  lemma LowBit(b: bool, v: nat, r: nat)
    requires v == BitValue(b) + 2 * r
    ensures Bit(v, 0) == b && v / 2 == r
  {
  }

  lemma FiveBitByte(v: nat)
    requires v < 32
    ensures FiveBits(ByteWord(v))
  {
    BitsOf(v);
  }

  /** Bytes differ where their words do. */
  lemma ByteWordInjective(u: nat, v: nat)
    requires u < 256 && v < 256 && ByteWord(u) == ByteWord(v)
    ensures u == v
  {
    assert forall i :: 0 <= i < 8 ==> ByteWord(u)[i] == Bit(u, i) && ByteWord(v)[i] == Bit(v, i);
    assert Pow(2, 8) == 256;
    BitsDecide(u, v, 8);
  }

  lemma {:induction false} BitsDecide(u: nat, v: nat, n: nat)
    requires u < Pow(2, n) && v < Pow(2, n) && forall i :: 0 <= i < n ==> Bit(u, i) == Bit(v, i)
    ensures u == v
  {
    if n > 0 {
      assert Bit(u, 0) == Bit(v, 0);
      forall i | 0 <= i < n - 1 ensures Bit(u / 2, i) == Bit(v / 2, i) {
        assert Bit(u, i + 1) == Bit(v, i + 1);
      }
      BitsDecide(u / 2, v / 2, n - 1);
    }
  }
}
