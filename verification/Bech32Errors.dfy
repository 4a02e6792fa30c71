/**
 The guarantee of the Bech32 checksum: up to three changed symbols within a window of 1023
 always show in the register, however long the list is.
 */
module Bech32Errors {
  import opened Bech32Model
  import opened Bech32Field
  import opened Bech32Distance
  import S = Bech32Space

  /** What the change x of symbol i makes of the register after n symbols. */
  ghost function Effect(s: nat, x: S.Vector, i: nat, n: nat): S.Vector {
    if i < n then S.Ups(x, Steps(s, n - 1 - i)) else S.NIL
  }

  lemma EffectNext(s: nat, x: S.Vector, i: nat, n: nat)
    ensures Effect(s, x, i, n + 1) == S.Sum(S.Ups(Effect(s, x, i, n), s), S.If(i == n, x))
  {
    if i < n {
      S.UpsAdd(x, Steps(s, n - 1 - i), s);
      S.SumNil(S.Ups(Effect(s, x, i, n), s));
    } else {
      S.UpsZero(s);
      S.SumNil(x);
      S.SumNil(S.NIL);
    }
  }

  ghost function Three(s: nat, x: S.Vector, y: S.Vector, z: S.Vector, i: nat, j: nat, k: nat, n: nat): S.Vector {
    S.Sum(S.Sum(Effect(s, x, i, n), Effect(s, y, j, n)), Effect(s, z, k, n))
  }

  lemma ThreeNext(s: nat, x: S.Vector, y: S.Vector, z: S.Vector, i: nat, j: nat, k: nat, n: nat, next: nat)
    requires next == n + 1
    ensures Three(s, x, y, z, i, j, k, next)
      == S.Sum(S.Ups(Three(s, x, y, z, i, j, k, n), s), S.Sum(S.Sum(S.If(i == n, x), S.If(j == n, y)), S.If(k == n, z)))
  {
    var a, b, c := Effect(s, x, i, n), Effect(s, y, j, n), Effect(s, z, k, n);
    EffectNext(s, x, i, n);
    EffectNext(s, y, j, n);
    EffectNext(s, z, k, n);
    S.UpsLinear(S.Sum(a, b), c, s);
    S.UpsLinear(a, b, s);
    S.SumFour(S.Ups(a, s), S.If(i == n, x), S.Ups(b, s), S.If(j == n, y));
    S.SumFour(S.Sum(S.Ups(a, s), S.Ups(b, s)), S.Sum(S.If(i == n, x), S.If(j == n, y)), S.Ups(c, s), S.If(k == n, z));
  }

  /** Five-bit symbols, all zero but for symbols i, j and k. */
  ghost predicate ZeroBut(d: seq<Word>, i: nat, j: nat, k: nat) {
    && i < j < k < |d| && (forall m :: 0 <= m < |d| ==> FiveBits(d[m]))
    && forall m :: 0 <= m < |d| && m != i && m != j && m != k ==> Blank(d[m])
  }

  predicate Blank(w: Word) { forall b :: 0 <= b < 30 ==> !w[b] }

  lemma BlankIsZero(w: Word)
    ensures Blank(w) <==> w == ZERO
  {
  }

  ghost function Symbol(w: Word): S.Vector { Image(w[..5]) }

  lemma SymbolOfZero()
    ensures Symbol(ZERO) == S.NIL
  {
    assert ZERO[..5] == NOUGHT;
    ImageIs(NOUGHT);
  }

  lemma SymbolAt(d: seq<Word>, i: nat, j: nat, k: nat, x: S.Vector, y: S.Vector, z: S.Vector, n: nat)
    requires ZeroBut(d, i, j, k) && n < |d| && x == Symbol(d[i]) && y == Symbol(d[j]) && z == Symbol(d[k])
    ensures Symbol(d[n]) == S.Sum(S.Sum(S.If(i == n, x), S.If(j == n, y)), S.If(k == n, z))
  {
    BlankIsZero(d[n]);
    SymbolOfZero();
    S.SumNil(S.NIL);
    S.SumNil(Symbol(d[n]));
  }

  lemma EffectsAtStart(s: nat, c: Word, x: S.Vector, y: S.Vector, z: S.Vector, i: nat, j: nat, k: nat, n: nat)
    requires c == ZERO && n == 0
    ensures Value(s, Unpack(c)) == Three(s, x, y, z, i, j, k, n)
  {
    ZeroValue(s);
    S.SumNil(S.NIL);
  }

  /** One symbol more, which may be one of the three. */
  lemma NextEffect(s: nat, b: Word, c: Word, w: Word, x: S.Vector, y: S.Vector, z: S.Vector, i: nat, j: nat, k: nat,
                   m: nat, n: nat, before: S.Vector, change: S.Vector)
    requires Root(s) && FiveBits(w) && Value(s, Unpack(b)) == before == Three(s, x, y, z, i, j, k, m)
    requires Symbol(w) == change == S.Sum(S.Sum(S.If(i == m, x), S.If(j == m, y)), S.If(k == m, z))
    requires n == m + 1 && c == Step(b, w)
    ensures Value(s, Unpack(c)) == Three(s, x, y, z, i, j, k, n)
  {
    StepValue(s, b, w);
    ThreeNext(s, x, y, z, i, j, k, m, n);
  }

  /** The register of such a list, evaluated at a root, is the sum of three effects. */
  lemma {:induction false} ThreeEffects(s: nat, d: seq<Word>, i: nat, j: nat, k: nat, x: S.Vector, y: S.Vector,
                                        z: S.Vector, n: nat)
    requires Root(s) && ZeroBut(d, i, j, k) && n <= |d|
    requires x == Symbol(d[i]) && y == Symbol(d[j]) && z == Symbol(d[k])
    ensures Value(s, Unpack(Fold(ZERO, d, n))) == Three(s, x, y, z, i, j, k, n)
    decreases n
  {
    if n == 0 {
      EffectsAtStart(s, Fold(ZERO, d, n), x, y, z, i, j, k, n);
    } else {
      var m := n - 1;
      ThreeEffects(s, d, i, j, k, x, y, z, m);
      EffectsNext(s, d, i, j, k, x, y, z, m, Fold(ZERO, d, m), n, Fold(ZERO, d, n));
    }
  }

  lemma EffectsNext(s: nat, d: seq<Word>, i: nat, j: nat, k: nat, x: S.Vector, y: S.Vector, z: S.Vector, m: nat,
                    b: Word, n: nat, c: Word)
    requires Root(s) && ZeroBut(d, i, j, k) && n == m + 1 && n <= |d| && b == Fold(ZERO, d, m) && c == Fold(ZERO, d, n)
    requires x == Symbol(d[i]) && y == Symbol(d[j]) && z == Symbol(d[k])
    requires Value(s, Unpack(b)) == Three(s, x, y, z, i, j, k, m)
    ensures Value(s, Unpack(c)) == Three(s, x, y, z, i, j, k, n)
  {
    SymbolAt(d, i, j, k, x, y, z, m);
    NextEffect(s, b, c, d[m], x, y, z, i, j, k, m, n, Value(s, Unpack(b)), Symbol(d[m]));
  }

  lemma ZeroValue(s: nat)
    ensures Value(s, Unpack(ZERO)) == S.NIL
  {
    forall j | 0 <= j < 6
      ensures Unpack(ZERO)[j] == NOUGHT
    {
      assert forall b :: 0 <= b < 5 ==> !Unpack(ZERO)[j][b];
    }
    assert Unpack(ZERO) == Noughts(6);
    ValueNoughts(s, 6);
  }

  lemma {:induction false} StepsMore(s: nat, n: nat)
    ensures Steps(s + 1, n) == Steps(s, n) + n && Steps(s + 2, n) == Steps(s, n) + (n + n)
  {
    if n > 0 {
      StepsMore(s, n - 1);
    }
  }

  /** The effects of three changes at the three roots, as the system of equations that Vandermonde solves. */
  lemma EffectsAre(s: nat, x: S.Vector, i: nat, n: nat)
    requires i < n
    ensures var y := Effect(s, x, i, n); var a := n - 1 - i;
      Effect(s + 1, x, i, n) == S.Ups(y, a) && Effect(s + 2, x, i, n) == S.Ups(y, a + a)
  {
    var a := n - 1 - i;
    StepsMore(s, a);
    S.UpsAdd(x, Steps(s, a), a);
    S.UpsAdd(x, Steps(s, a), a + a);
  }

  /** Changes that have no effect at three successive roots are none. */
  lemma NoEffect(s: nat, x: S.Vector, y: S.Vector, z: S.Vector, i: nat, j: nat, k: nat, n: nat)
    requires i < n && j < n && k < n && n <= i + 1023 && n <= j + 1023 && n <= k + 1023 && i != j && i != k
    requires forall t :: s <= t <= s + 2 ==> Three(t, x, y, z, i, j, k, n) == S.NIL
    ensures x == S.NIL
  {
    EffectsAre(s, x, i, n);
    EffectsAre(s, y, j, n);
    EffectsAre(s, z, k, n);
    assert Three(s, x, y, z, i, j, k, n) == S.NIL && Three(s + 1, x, y, z, i, j, k, n) == S.NIL;
    assert Three(s + 2, x, y, z, i, j, k, n) == S.NIL;
    S.Vandermonde(Effect(s, x, i, n), Effect(s, y, j, n), Effect(s, z, k, n), n - 1 - i, n - 1 - j, n - 1 - k);
    S.UpsZero(Steps(s, n - 1 - i));
    S.UpsInjective(x, S.NIL, Steps(s, n - 1 - i));
  }

  lemma SwapFirst(s: nat, x: S.Vector, y: S.Vector, z: S.Vector, i: nat, j: nat, k: nat, n: nat)
    ensures Three(s, x, y, z, i, j, k, n) == Three(s, y, x, z, j, i, k, n)
  {
    S.SumCommutes(Effect(s, x, i, n), Effect(s, y, j, n));
  }

  lemma Rotate(s: nat, x: S.Vector, y: S.Vector, z: S.Vector, i: nat, j: nat, k: nat, n: nat)
    ensures Three(s, x, y, z, i, j, k, n) == Three(s, z, x, y, k, i, j, n)
  {
    var a, b, c := Effect(s, x, i, n), Effect(s, y, j, n), Effect(s, z, k, n);
    S.SumCommutes(S.Sum(a, b), c);
    S.SumAssociates(c, a, b);
  }

  lemma NoChanges(s: nat, x: S.Vector, y: S.Vector, z: S.Vector, i: nat, j: nat, k: nat, n: nat)
    requires i < j < k < n <= i + 1023 && forall t :: s <= t <= s + 2 ==> Three(t, x, y, z, i, j, k, n) == S.NIL
    ensures x == S.NIL && y == S.NIL && z == S.NIL
  {
    forall t | s <= t <= s + 2
      ensures Three(t, y, x, z, j, i, k, n) == S.NIL && Three(t, z, x, y, k, i, j, n) == S.NIL
    {
      assert Three(t, x, y, z, i, j, k, n) == S.NIL;
      SwapFirst(t, x, y, z, i, j, k, n);
      Rotate(t, x, y, z, i, j, k, n);
    }
    NoEffect(s, x, y, z, i, j, k, n);
    NoEffect(s, y, x, z, j, i, k, n);
    NoEffect(s, z, x, y, k, i, j, n);
  }

  lemma OnlyZero(w: Word)
    requires FiveBits(w) && Symbol(w) == S.NIL
    ensures w == ZERO
  {
    ImageInjective(w[..5]);
    forall b | 0 <= b < 30
      ensures !w[b]
    {
      assert b < 5 ==> w[..5][b] == w[b];
    }
  }

  lemma ThreeRoots(t: nat)
    requires 24 <= t <= 26
    ensures Root(t)
  {
    if t == 24 {
      Root24(t);
    } else if t == 25 {
      Root25(t);
    } else {
      Root26(t);
    }
  }

  /** A list with up to three symbols that are not zero, within the last 1023 of n, leaves the register not zero. */
  lemma NotZero(d: seq<Word>, i: nat, j: nat, k: nat, n: nat)
    requires ZeroBut(d, i, j, k) && k < n <= |d| && n <= i + 1023 && (d[i] != ZERO || d[j] != ZERO || d[k] != ZERO)
    ensures Fold(ZERO, d, n) != ZERO
  {
    if Fold(ZERO, d, n) == ZERO {
      forall t | 24 <= t <= 26
        ensures Three(t, Symbol(d[i]), Symbol(d[j]), Symbol(d[k]), i, j, k, n) == S.NIL
      {
        ThreeRoots(t);
        ThreeEffects(t, d, i, j, k, Symbol(d[i]), Symbol(d[j]), Symbol(d[k]), n);
        ZeroValue(t);
      }
      NoChanges(24, Symbol(d[i]), Symbol(d[j]), Symbol(d[k]), i, j, k, n);
      OnlyZero(d[i]);
      OnlyZero(d[j]);
      OnlyZero(d[k]);
    }
  }

  /** The lists agree but for symbols i, j and k. */
  ghost predicate AgreeBut(v: seq<Word>, w: seq<Word>, i: nat, j: nat, k: nat) {
    && i < j < k < |v| == |w|
    && (forall m :: 0 <= m < |v| ==> FiveBits(v[m]) && FiveBits(w[m]))
    && forall m :: 0 <= m < |v| && m != i && m != j && m != k ==> v[m] == w[m]
  }

  /** Up to three changes within the last 1023 of n symbols show in the register. */
  lemma ChangesShow(c: Word, v: seq<Word>, w: seq<Word>, i: nat, j: nat, k: nat, n: nat)
    requires AgreeBut(v, w, i, j, k) && k < n <= |v| && n <= i + 1023
    requires v[i] != w[i] || v[j] != w[j] || v[k] != w[k]
    ensures Fold(c, v, n) != Fold(c, w, n)
  {
    var d := XorAll(v, w);
    forall m | 0 <= m < |d|
      ensures FiveBits(d[m]) && (d[m] == ZERO <==> v[m] == w[m])
    {
      XorZero(v[m], w[m]);
      BlankIsZero(d[m]);
    }
    NotZero(d, i, j, k, n);
    FoldLinear(c, c, v, w, n);
    XorZero(c, c);
    XorZero(Fold(c, v, n), Fold(c, w, n));
  }
}
