/** Bech32 strings: checksum creation and verification, encoding and decoding. */
module Bech32 {
  import opened Common
  import opened Bech32Model
  import opened Bech32Field
  import Errors = Bech32Errors

  datatype Parts = Parts(hrp: seq<Byte>, values: seq<Byte>)

  const SEPARATOR: Byte := 49
  const ONE: Word := ByteWord(1)

  predicate AllBelow32(v: seq<Byte>) { forall i :: 0 <= i < |v| ==> v[i] < 32 }

  // ---- checksum

  function Words(v: seq<Byte>): (w: seq<Word>)
    ensures |w| == |v| && forall i :: 0 <= i < |v| ==> w[i] == ByteWord(v[i])
  {
    seq(|v|, i requires 0 <= i < |v| => ByteWord(v[i]))
  }

  function PolyMod(v: seq<Byte>): Word { Fold(ONE, Words(v), |v|) }

  /** The high three bits of every character, a zero, then the low five bits. */
  function ExpandHrp(hrp: seq<Byte>): seq<Byte> {
    seq(|hrp|, i requires 0 <= i < |hrp| => hrp[i] / 32) + [0] + seq(|hrp|, i requires 0 <= i < |hrp| => hrp[i] % 32)
  }

  predicate VerifyChecksum(hrp: seq<Byte>, values: seq<Byte>) { PolyMod(ExpandHrp(hrp) + values) == ONE }

  function Zeros(n: nat): seq<Byte> { seq(n, _ => 0) }

  /** The six symbols of a register, highest first. */
  function Symbols(c: Word): seq<Byte> {
    seq(6, i requires 0 <= i < 6 => Group(c, 5 * (5 - i)))
  }

  function CreateChecksum(hrp: seq<Byte>, values: seq<Byte>): seq<Byte> {
    Symbols(Xor(PolyMod(ExpandHrp(hrp) + values + Zeros(6)), ONE))
  }

  /** Shifting a register's symbols into an empty one gives it back. */
  lemma SymbolsRebuild(c: Word, w: seq<Word>)
    requires w == Words(Symbols(c))
    ensures Fold(ZERO, w, |w|) == c
  {
    SymbolsAreFiveBits(c, w);
    var n := |w|;
    PackedBits(w, n);
    RebuildBits(c, w, Fold(ZERO, w, n));
  }

  lemma SymbolsAreFiveBits(c: Word, w: seq<Word>)
    requires w == Words(Symbols(c))
    ensures forall k :: 0 <= k < |w| ==> FiveBits(w[k])
  {
    forall k | 0 <= k < |w|
      ensures FiveBits(w[k])
    {
      GroupBits(c, 5 * (5 - k));
    }
  }

  lemma RebuildBits(c: Word, w: seq<Word>, f: Word)
    requires w == Words(Symbols(c)) && forall j :: 0 <= j < 30 ==> PackedAt(w, 6, f, j)
    ensures f == c
  {
    forall j | 0 <= j < 30
      ensures f[j] == c[j]
    {
      RebuildBit(c, w, f, j);
    }
  }

  lemma RebuildBit(c: Word, w: seq<Word>, f: Word, j: nat)
    requires w == Words(Symbols(c)) && j < 30 && PackedAt(w, 6, f, j)
    ensures f[j] == c[j]
  {
    var q := j / 5;
    GroupBits(c, 5 * q);
    assert Symbols(c)[5 - q] == Group(c, 5 * q);
    assert w[5 - q] == ByteWord(Group(c, 5 * q));
  }

  /** Symbols in place of as many zeros add themselves to the register. */
  lemma LastSymbols(v: seq<Byte>, s: seq<Byte>)
    ensures PolyMod(v + s) == Xor(PolyMod(v + Zeros(|s|)), Fold(ZERO, Words(s), |s|))
  {
    var a, b, z := Words(v + s), Words(v + Zeros(|s|)), Words(s);
    ZeroByte();
    assert a[|v|..] == z;
    assert b[|v|..] == seq(|z|, _ => ZERO);
    FoldTail(ONE, a, b, |v|, z);
  }

  lemma ZeroByte()
    ensures ByteWord(0) == ZERO
  {
    BitsOf(0);
  }

  /** The checksum that is created verifies, for every prefix and every list of bytes. */
  lemma ChecksumVerifies(hrp: seq<Byte>, values: seq<Byte>)
    ensures VerifyChecksum(hrp, values + CreateChecksum(hrp, values))
  {
    var v := ExpandHrp(hrp) + values;
    var m := PolyMod(v + Zeros(6));
    var s := CreateChecksum(hrp, values);
    SymbolsRebuild(Xor(m, ONE), Words(s));
    LastSymbols(v, s);
    assert ExpandHrp(hrp) + (values + s) == v + s;
    XorTwice(m, ONE);
  }

  /** Only that checksum does. */
  lemma ChecksumIsUnique(hrp: seq<Byte>, values: seq<Byte>, s: seq<Byte>)
    requires |s| == 6 && (forall i :: 0 <= i < 6 ==> s[i] < 32) && VerifyChecksum(hrp, values + s)
    ensures s == CreateChecksum(hrp, values)
  {
    ChecksumVerifies(hrp, values);
    var c := CreateChecksum(hrp, values);
    var e := ExpandHrp(hrp) + values;
    assert ExpandHrp(hrp) + (values + s) == e + s && ExpandHrp(hrp) + (values + c) == e + c;
    TailUnique(e, s, c);
  }

  lemma TailUnique(v: seq<Byte>, s: seq<Byte>, c: seq<Byte>)
    requires |s| == |c| <= 6 && (forall i :: 0 <= i < |s| ==> s[i] < 32 && c[i] < 32)
    requires PolyMod(v + s) == PolyMod(v + c)
    ensures s == c
  {
    forall q | 0 <= q < |s|
      ensures s[q] == c[q]
    {
      if s[q] != c[q] {
        TailDetected(v, s, c, q);
      }
    }
  }

  lemma TailDetected(v: seq<Byte>, s: seq<Byte>, c: seq<Byte>, q: nat)
    requires q < |s| == |c| <= 6 && s[q] != c[q] && forall i :: 0 <= i < |s| ==> s[i] < 32 && c[i] < 32
    ensures PolyMod(v + s) != PolyMod(v + c)
  {
    Detected(v + s, v + c, |v|, |s|, |v| + q);
  }

  /** Any change within six consecutive five-bit symbols, in a list of any length, changes the register. */
  lemma Detected(v: seq<Byte>, w: seq<Byte>, p: nat, n: nat, q: nat)
    requires p + n <= |v| == |w| && n <= 6 && p <= q < p + n && v[q] != w[q]
    requires forall i :: 0 <= i < |v| && !(p <= i < p + n) ==> v[i] == w[i]
    requires forall i :: p <= i < p + n ==> v[i] < 32 && w[i] < 32
    ensures PolyMod(v) != PolyMod(w)
  {
    forall i | p <= i < p + n
      ensures FiveBits(Words(v)[i]) && FiveBits(Words(w)[i])
    {
      FiveBitByte(v[i]);
      FiveBitByte(w[i]);
    }
    if Words(v)[q] == Words(w)[q] {
      ByteWordInjective(v[q], w[q]);
    }
    BurstShows(ONE, Words(v), Words(w), p, n, q);
  }

  /** Changing one byte of a string with a valid checksum always makes it invalid. */
  lemma SingleChangeDetected(hrp: seq<Byte>, values: seq<Byte>, p: nat, x: Byte)
    requires VerifyChecksum(hrp, values) && p < |values| && x != values[p]
    ensures !VerifyChecksum(hrp, values[p := x])
  {
    var e := ExpandHrp(hrp);
    var v, w := e + values, e + values[p := x];
    if Words(v)[|e| + p] == Words(w)[|e| + p] {
      ByteWordInjective(values[p], x);
    }
    SingleChangeShows(Words(v), Words(w), ONE, |e| + p);
  }

  // ---- what the checksum is

  /** The polynomial with the coefficients 1, v0, v1, ... */
  function Polynomial(v: seq<Byte>): seq<Element> { [Of(1)] + seq(|v|, i requires 0 <= i < |v| => Of(v[i])) }

  lemma ByteElement(v: Byte)
    requires v < 32
    ensures FiveBits(ByteWord(v)) && ByteWord(v)[..5] == Of(v)
  {
    FiveBitByte(v);
  }

  lemma {:induction false} FoldDivides(v: seq<Byte>, n: nat) returns (q: seq<Element>)
    requires AllBelow32(v) && n <= |v|
    ensures Divides(Polynomial(v[..n]), q, Unpack(Fold(ONE, Words(v), n)))
  {
    if n == 0 {
      var z := Unpack(ZERO);
      NothingDivides(z);
      ByteElement(1);
      StepOfZero(ONE);
      StepDivides([], [], ZERO, ONE);
      q := [z[0]];
      assert Polynomial(v[..0]) == [] + [Of(1)] && [] + [z[0]] == q;
    } else {
      var p := FoldDivides(v, n - 1);
      var c := Fold(ONE, Words(v), n - 1);
      ByteElement(v[n - 1]);
      StepDivides(Polynomial(v[..n - 1]), p, c, ByteWord(v[n - 1]));
      q := p + [Unpack(c)[0]];
      assert Polynomial(v[..n]) == Polynomial(v[..n - 1]) + [Of(v[n - 1])];
    }
  }

  /** The register is the remainder of the polynomial modulo the generator. */
  lemma PolyModIsRemainder(v: seq<Byte>)
    requires AllBelow32(v)
    ensures IsRemainder(Polynomial(v), Unpack(PolyMod(v)))
  {
    var q := FoldDivides(v, |v|);
    assert v[..|v|] == v;
  }

  /** The constant polynomial 1, in the lowest of six places. */
  const UNIT: seq<Element> := [NOUGHT, NOUGHT, NOUGHT, NOUGHT, NOUGHT, Of(1)]

  /** A string verifies exactly if its polynomial leaves the remainder 1. */
  lemma VerifiesExactly(hrp: seq<Byte>, values: seq<Byte>)
    requires AllBelow32(values)
    ensures VerifyChecksum(hrp, values) <==> IsRemainder(Polynomial(ExpandHrp(hrp) + values), UNIT)
  {
    var v := ExpandHrp(hrp) + values;
    PolyModIsRemainder(v);
    UnpackedOne();
    if IsRemainder(Polynomial(v), UNIT) {
      RemainderIsUnique(Polynomial(v), UNIT, Unpack(PolyMod(v)));
      UnpackInjective(PolyMod(v), ONE);
    }
  }

  lemma UnpackedOne()
    ensures Unpack(ONE) == UNIT
  {
    ByteElement(1);
    assert Unpack(ONE)[5] == ONE[..5];
    assert forall j :: 0 <= j < 5 ==> Unpack(ONE)[j] == NOUGHT;
  }

  // ---- how many changes it detects

  /** The lists have the same length and differ at most in symbols i, j and k. */
  ghost predicate DifferAt(v: seq<Byte>, w: seq<Byte>, i: nat, j: nat, k: nat) {
    && i < j < k < |v| == |w| && AllBelow32(v) && AllBelow32(w)
    && forall m :: 0 <= m < |v| && m != i && m != j && m != k ==> v[m] == w[m]
  }

  lemma WordsAgree(v: seq<Byte>, w: seq<Byte>, i: nat, j: nat, k: nat)
    requires DifferAt(v, w, i, j, k)
    ensures Errors.AgreeBut(Words(v), Words(w), i, j, k)
    ensures v != w ==> Words(v)[i] != Words(w)[i] || Words(v)[j] != Words(w)[j] || Words(v)[k] != Words(w)[k]
  {
    forall m | 0 <= m < |v|
      ensures FiveBits(Words(v)[m]) && FiveBits(Words(w)[m]) && (Words(v)[m] == Words(w)[m] ==> v[m] == w[m])
    {
      FiveBitByte(v[m]);
      FiveBitByte(w[m]);
      if Words(v)[m] == Words(w)[m] {
        ByteWordInjective(v[m], w[m]);
      }
    }
    if Words(v)[i] == Words(w)[i] && Words(v)[j] == Words(w)[j] && Words(v)[k] == Words(w)[k] {
      assert v == w;
    }
  }

  /** Up to three changed symbols within a window of 1023, in a list of any length, change the register. */
  lemma ThreeChangesShow(v: seq<Byte>, w: seq<Byte>, i: nat, j: nat, k: nat)
    requires DifferAt(v, w, i, j, k) && v != w && k < i + 1023
    ensures PolyMod(v) != PolyMod(w)
  {
    WordsAgree(v, w, i, j, k);
    Errors.ChangesShow(ONE, Words(v), Words(w), i, j, k, k + 1);
    FoldKeepsDifference(ONE, ONE, Words(v), Words(w), k + 1, |v|);
  }

  /** Up to three changes in a string that verifies, of up to 1023 symbols behind the separator, make it invalid. */
  lemma ThreeChangesDetected(hrp: seq<Byte>, values: seq<Byte>, other: seq<Byte>, i: nat, j: nat, k: nat)
    requires DifferAt(values, other, i, j, k) && values != other && |values| <= 1023 && VerifyChecksum(hrp, values)
    ensures !VerifyChecksum(hrp, other)
  {
    var e := ExpandHrp(hrp);
    var v, w, n := e + values, e + other, |e|;
    assert v[n..] == values && w[n..] == other;
    assert DifferAt(v, w, n + i, n + j, n + k);
    ThreeChangesShow(v, w, n + i, n + j, n + k);
  }
}
