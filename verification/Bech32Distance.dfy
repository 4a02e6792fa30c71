/**
 How many changed symbols the Bech32 checksum detects: the register is evaluated at three
 successive powers of a primitive element of the field of 1024 elements, which are roots of
 the generator, so that what it says about up to three changes can be solved for them.
 */
module Bech32Distance {
  import opened Bech32Model
  import opened Bech32Field
  import S = Bech32Space

  // ---- the field of 32 elements within the one of 1024

  /** The powers of the element that stands for {2}: the sum of the first three powers of the primitive one. */
  const IMAGES: seq<S.Vector> := [
    S.Vector(S.Half(true, false, false, false, false), S.Half(false, false, false, false, false)),
    S.Vector(S.Half(false, true, true, true, false), S.Half(false, false, false, false, false)),
    S.Vector(S.Half(false, false, true, false, true), S.Half(false, true, false, false, false)),
    S.Vector(S.Half(false, false, false, true, true), S.Half(false, true, false, true, true)),
    S.Vector(S.Half(true, true, true, true, true), S.Half(true, false, true, false, false))]

  function ImageTo(e: Element, n: nat): S.Vector
    requires n <= 5
  {
    if n == 0 then S.NIL else S.Sum(ImageTo(e, n - 1), S.If(e[n - 1], IMAGES[n - 1]))
  }

  function Image(e: Element): S.Vector { ImageTo(e, |e|) }

  lemma IfPlus(x: bool, y: bool, z: S.Vector)
    ensures S.If(x != y, z) == S.Sum(S.If(x, z), S.If(y, z))
  {
    S.SumNil(z);
    S.SumSelf(z);
    S.SumNil(S.NIL);
  }

  lemma {:induction false} ImageToAdd(d: Element, e: Element, n: nat)
    requires n <= 5
    ensures ImageTo(Add(d, e), n) == S.Sum(ImageTo(d, n), ImageTo(e, n))
  {
    if n == 0 {
      S.SumNil(S.NIL);
    } else {
      ImageToAdd(d, e, n - 1);
      IfPlus(d[n - 1], e[n - 1], IMAGES[n - 1]);
      S.SumFour(ImageTo(d, n - 1), ImageTo(e, n - 1), S.If(d[n - 1], IMAGES[n - 1]), S.If(e[n - 1], IMAGES[n - 1]));
    }
  }

  lemma ImageAdd(d: Element, e: Element)
    ensures Image(Add(d, e)) == S.Sum(Image(d), Image(e))
  {
    ImageToAdd(d, e, 5);
  }

  lemma ImageIs(e: Element)
    ensures Image(e) == S.Sum(S.Sum(S.Sum(S.Sum(S.If(e[0], IMAGES[0]), S.If(e[1], IMAGES[1])), S.If(e[2], IMAGES[2])),
                                    S.If(e[3], IMAGES[3])), S.If(e[4], IMAGES[4]))
  {
    assert ImageTo(e, 0) == S.NIL;
    assert ImageTo(e, 1) == S.Sum(S.NIL, S.If(e[0], IMAGES[0]));
    S.SumNil(S.If(e[0], IMAGES[0]));
    assert ImageTo(e, 2) == S.Sum(ImageTo(e, 1), S.If(e[1], IMAGES[1]));
    assert ImageTo(e, 3) == S.Sum(ImageTo(e, 2), S.If(e[2], IMAGES[2]));
    assert ImageTo(e, 4) == S.Sum(ImageTo(e, 3), S.If(e[3], IMAGES[3]));
  }

  /** Only zero has the image zero. */
  lemma ImageInjective(e: Element)
    requires Image(e) == S.NIL
    ensures e == NOUGHT
  {
    ImageIs(e);
  }

  // ---- {2} as an operator

  const TWO: seq<bool> := [false, true, true, true]

  function Twofold(z: S.Vector): S.Vector { S.Combined(TWO, z) }

  lemma TwofoldImages()
    ensures forall b :: 0 <= b < 4 ==> Twofold(IMAGES[b]) == IMAGES[b + 1]
  {
    assert Twofold(IMAGES[0]) == IMAGES[1];
    assert Twofold(IMAGES[1]) == IMAGES[2];
    assert Twofold(IMAGES[2]) == IMAGES[3];
    assert Twofold(IMAGES[3]) == IMAGES[4];
  }

  lemma TwofoldImage(b: nat, z: S.Vector)
    requires b < 4 && z == IMAGES[b]
    ensures Twofold(z) == IMAGES[b + 1]
  {
    TwofoldImages();
  }

  lemma TwofoldLast()
    ensures Twofold(IMAGES[4]) == S.Sum(IMAGES[0], IMAGES[3])
  {
  }

  lemma TwofoldIf(b: bool, z: S.Vector)
    ensures Twofold(S.If(b, z)) == S.If(b, Twofold(z))
  {
    S.CombinedNil(TWO);
  }

  lemma TwofoldSum(x: S.Vector, y: S.Vector)
    ensures Twofold(S.Sum(x, y)) == S.Sum(Twofold(x), Twofold(y))
  {
    S.CombinedSum(TWO, x, y);
  }

  lemma TwofoldUps(z: S.Vector, n: nat)
    ensures Twofold(S.Ups(z, n)) == S.Ups(Twofold(z), n)
  {
    S.CombinedUps(TWO, z, n);
  }

  /** Twice an element has the twofold image. */
  lemma ImageDouble(e: Element)
    ensures Image(Double(e)) == Twofold(Image(e))
  {
    var i := IMAGES;
    TwofoldImages();
    TwofoldLast();
    ImageIs(e);
    ImageIs(Double(e));
    var p := S.Sum(S.If(e[0], i[0]), S.If(e[1], i[1]));
    var q := S.Sum(p, S.If(e[2], i[2]));
    var r := S.Sum(q, S.If(e[3], i[3]));
    TwofoldSum(r, S.If(e[4], i[4]));
    TwofoldSum(q, S.If(e[3], i[3]));
    TwofoldSum(p, S.If(e[2], i[2]));
    TwofoldSum(S.If(e[0], i[0]), S.If(e[1], i[1]));
    TwofoldIf(e[0], i[0]);
    TwofoldIf(e[1], i[1]);
    TwofoldIf(e[2], i[2]);
    TwofoldIf(e[3], i[3]);
    TwofoldIf(e[4], i[4]);
  }

  // ---- evaluating polynomials at powers of the primitive element

  /** The value at the s-th power of the polynomial with these coefficients, the highest first. */
  function Value(s: nat, f: seq<Element>): S.Vector {
    if f == [] then S.NIL else S.Sum(S.Ups(Value(s, f[..|f| - 1]), s), Image(f[|f| - 1]))
  }

  lemma ValueNext(s: nat, f: seq<Element>, e: Element)
    ensures Value(s, f + [e]) == S.Sum(S.Ups(Value(s, f), s), Image(e))
  {
    assert (f + [e])[..|f|] == f;
  }

  function AddAll(f: seq<Element>, g: seq<Element>): seq<Element>
    requires |f| == |g|
  {
    seq(|f|, i requires 0 <= i < |f| => Add(f[i], g[i]))
  }

  lemma {:induction false} ValueAdd(s: nat, f: seq<Element>, g: seq<Element>)
    requires |f| == |g|
    ensures Value(s, AddAll(f, g)) == S.Sum(Value(s, f), Value(s, g))
    decreases |f|
  {
    if f == [] {
      S.SumNil(S.NIL);
    } else {
      var n := |f| - 1;
      var p, q := f[..n], g[..n];
      assert AddAll(f, g)[..n] == AddAll(p, q);
      ValueAdd(s, p, q);
      S.UpsLinear(Value(s, p), Value(s, q), s);
      ImageAdd(f[n], g[n]);
      S.SumFour(S.Ups(Value(s, p), s), S.Ups(Value(s, q), s), Image(f[n]), Image(g[n]));
    }
  }

  function DoubleAll(f: seq<Element>): seq<Element> { seq(|f|, i requires 0 <= i < |f| => Double(f[i])) }

  lemma {:induction false} ValueDouble(s: nat, f: seq<Element>)
    ensures Value(s, DoubleAll(f)) == Twofold(Value(s, f))
    decreases |f|
  {
    if f == [] {
      S.CombinedNil(TWO);
    } else {
      var n := |f| - 1;
      assert DoubleAll(f)[..n] == DoubleAll(f[..n]);
      ValueDouble(s, f[..n]);
      TwofoldUps(Value(s, f[..n]), s);
      ImageDouble(f[n]);
      TwofoldSum(S.Ups(Value(s, f[..n]), s), Image(f[n]));
    }
  }

  lemma ValueOne(s: nat, e: Element)
    ensures Value(s, [e]) == Image(e)
  {
    assert [e] == [] + [e];
    ValueNext(s, [], e);
    S.UpsZero(s);
    S.SumNil(Image(e));
  }

  /** s added up n times. */
  function Steps(s: nat, n: nat): nat { if n == 0 then 0 else Steps(s, n - 1) + s }

  /** The coefficient of the highest power counts with that power. */
  lemma {:induction false} ValueHead(s: nat, e: Element, f: seq<Element>)
    ensures Value(s, [e] + f) == S.Sum(S.Ups(Image(e), Steps(s, |f|)), Value(s, f))
    decreases |f|
  {
    if f == [] {
      assert [e] + f == [e];
      ValueOne(s, e);
      S.SumNil(Image(e));
    } else {
      var n := |f| - 1;
      var g, last := f[..n], f[n];
      ValueHead(s, e, g);
      assert [e] + f == ([e] + g) + [last] && f == g + [last];
      HeadMoves(s, e, g, last, Steps(s, n));
    }
  }

  lemma HeadMoves(s: nat, e: Element, g: seq<Element>, last: Element, d: nat)
    requires Value(s, [e] + g) == S.Sum(S.Ups(Image(e), d), Value(s, g))
    ensures Value(s, ([e] + g) + [last]) == S.Sum(S.Ups(Image(e), d + s), Value(s, g + [last]))
  {
    ValueNext(s, [e] + g, last);
    ValueNext(s, g, last);
    S.UpsLinear(S.Ups(Image(e), d), Value(s, g), s);
    S.UpsAdd(Image(e), d, s);
    S.SumAssociates(S.Ups(Image(e), d + s), S.Ups(Value(s, g), s), Image(last));
  }

  // ---- three roots of the generator

  /** The polynomial x^6 modulo g(x), times {2}^n. */
  function Lows(n: nat): seq<Element> { seq(6, j requires 0 <= j < 6 => Doubled(Low(j), n)) }

  /** x^6 and x^6 modulo g(x) have the same value, so that g(x) has the value zero. */
  ghost predicate Root(s: nat) { Value(s, Lows(0)) == S.Power(Steps(s, 6)) }

  /** The powers from 24 on. */
  const COLUMNS: seq<S.Vector> := [
    S.Vector(S.Half(false, false, false, false, true), S.Half(true, true, true, true, true)),
    S.Vector(S.Half(true, true, false, false, false), S.Half(false, true, true, false, true)),
    S.Vector(S.Half(true, false, true, false, false), S.Half(true, false, true, false, false)),
    S.Vector(S.Half(false, true, false, true, false), S.Half(false, true, false, true, false)),
    S.Vector(S.Half(false, false, true, false, true), S.Half(false, false, true, false, true)),
    S.Vector(S.Half(true, true, false, true, false), S.Half(false, false, false, false, false)),
    S.Vector(S.Half(false, true, true, false, true), S.Half(false, false, false, false, false)),
    S.Vector(S.Half(false, false, true, true, false), S.Half(true, false, false, false, false)),
    S.Vector(S.Half(false, false, false, true, true), S.Half(false, true, false, false, false)),
    S.Vector(S.Half(false, false, false, false, true), S.Half(true, false, true, false, false)),
    S.Vector(S.Half(false, false, false, false, false), S.Half(true, true, false, true, false)),
    S.Vector(S.Half(false, false, false, false, false), S.Half(false, true, true, false, true))]

  lemma {:induction false} ColumnsArePowers(k: nat, n: nat)
    requires k < 12 && n == 24
    ensures COLUMNS[k] == S.Power(n + k)
  {
    if k == 0 {
      S.Power24();
    } else {
      ColumnsArePowers(k - 1, n);
      ColumnsGoUp(k - 1);
    }
  }

  lemma ColumnsGoUp(k: nat)
    requires k < 11
    ensures COLUMNS[k + 1] == S.Up(COLUMNS[k])
  {
  }

  /** What s steps make of any vector. */
  lemma Jump(z: S.Vector, s: nat, k: nat, x: seq<S.Vector>)
    requires k < 3 && s == 24 + k && x == COLUMNS[k..k + 10]
    ensures S.Ups(z, s) == S.SpreadAll(z, x)
  {
    forall i | 0 <= i < 10
      ensures x[i] == S.Power(s + i)
    {
      ColumnsArePowers(k + i, 24);
    }
    S.UpsSpreads(z, s, x);
  }

  lemma LowImages()
    ensures Image(Low(0)) == Image(Low(4))
      == S.Vector(S.Half(false, true, false, false, true), S.Half(true, false, true, true, true))
    ensures Image(Low(1)) == S.Vector(S.Half(true, false, true, false, false), S.Half(true, true, true, false, false))
    ensures Image(Low(2)) == S.Vector(S.Half(true, true, false, true, false), S.Half(true, true, true, false, false))
    ensures Image(Low(3)) == S.Vector(S.Half(false, true, false, true, false), S.Half(true, true, true, false, false))
    ensures Image(Low(5)) == S.Vector(S.Half(true, false, false, false, true), S.Half(true, false, true, false, false))
  {
    ImageIs(Of(29));
    ImageIs(Of(22));
    ImageIs(Of(20));
    ImageIs(Of(21));
    ImageIs(Of(18));
  }

  /** The value of one coefficient more, of those of x^6 modulo g(x). */
  lemma LowsNext(s: nat, k: nat, z: S.Vector)
    requires k < 6 && Value(s, Lows(0)[..k]) == z
    ensures Value(s, Lows(0)[..k + 1]) == S.Sum(S.Ups(z, s), Image(Low(k)))
  {
    assert Lows(0)[..k + 1] == Lows(0)[..k] + [Low(k)];
    ValueNext(s, Lows(0)[..k], Low(k));
  }

  lemma LowsEnds(s: nat)
    ensures Value(s, Lows(0)[..1])
      == S.Vector(S.Half(false, true, false, false, true), S.Half(true, false, true, true, true))
    ensures Lows(0)[..6] == Lows(0)
  {
    assert Lows(0)[..1] == [Low(0)];
    ValueOne(s, Low(0));
    FirstImage();
  }

  lemma FirstImage()
    ensures Image(Low(0)) == S.Vector(S.Half(false, true, false, false, true), S.Half(true, false, true, true, true))
  {
    LowImages();
  }

  lemma Columns(x: seq<S.Vector>, k: nat)
    requires k < 3 && x == COLUMNS[k..k + 10]
    ensures x[0] == COLUMNS[k] && x[1] == COLUMNS[k + 1] && x[2] == COLUMNS[k + 2] && x[3] == COLUMNS[k + 3]
    ensures x[4] == COLUMNS[k + 4] && x[5] == COLUMNS[k + 5] && x[6] == COLUMNS[k + 6] && x[7] == COLUMNS[k + 7]
    ensures x[8] == COLUMNS[k + 8] && x[9] == COLUMNS[k + 9]
  {
  }

  lemma Partial24From1(z: S.Vector, s: nat)
    requires s == 24 && z == S.Vector(S.Half(false, true, false, false, true), S.Half(true, false, true, true, true))
    ensures S.Sum(S.Ups(z, s), Image(Low(1)))
      == S.Vector(S.Half(true, false, true, true, true), S.Half(true, true, false, false, false))
  {
    var x := COLUMNS[0..10];
    Columns(x, 0);
    Jump(z, s, 0, x);
    assert S.SpreadAll(z, x)
      == S.Vector(S.Half(false, false, false, true, true), S.Half(false, false, true, false, false));
    LowImages();
  }

  lemma Partial24From2(z: S.Vector, s: nat)
    requires s == 24 && z == S.Vector(S.Half(true, false, true, true, true), S.Half(true, true, false, false, false))
    ensures S.Sum(S.Ups(z, s), Image(Low(2)))
      == S.Vector(S.Half(true, false, true, true, true), S.Half(true, true, false, false, false))
  {
    var x := COLUMNS[0..10];
    Columns(x, 0);
    Jump(z, s, 0, x);
    assert S.SpreadAll(z, x)
      == S.Vector(S.Half(false, true, true, false, true), S.Half(false, false, true, false, false));
    LowImages();
  }

  lemma Partial24From3(z: S.Vector, s: nat)
    requires s == 24 && z == S.Vector(S.Half(true, false, true, true, true), S.Half(true, true, false, false, false))
    ensures S.Sum(S.Ups(z, s), Image(Low(3)))
      == S.Vector(S.Half(false, false, true, true, true), S.Half(true, true, false, false, false))
  {
    var x := COLUMNS[0..10];
    Columns(x, 0);
    Jump(z, s, 0, x);
    assert S.SpreadAll(z, x)
      == S.Vector(S.Half(false, true, true, false, true), S.Half(false, false, true, false, false));
    LowImages();
  }

  lemma Partial24From4(z: S.Vector, s: nat)
    requires s == 24 && z == S.Vector(S.Half(false, false, true, true, true), S.Half(true, true, false, false, false))
    ensures S.Sum(S.Ups(z, s), Image(Low(4)))
      == S.Vector(S.Half(false, false, true, false, true), S.Half(false, true, true, false, false))
  {
    var x := COLUMNS[0..10];
    Columns(x, 0);
    Jump(z, s, 0, x);
    assert S.SpreadAll(z, x)
      == S.Vector(S.Half(false, true, true, false, false), S.Half(true, true, false, true, true));
    LowImages();
  }

  lemma Partial24From5(z: S.Vector, s: nat)
    requires s == 24 && z == S.Vector(S.Half(false, false, true, false, true), S.Half(false, true, true, false, false))
    ensures S.Sum(S.Ups(z, s), Image(Low(5)))
      == S.Vector(S.Half(false, true, false, true, true), S.Half(true, false, true, false, true))
  {
    var x := COLUMNS[0..10];
    Columns(x, 0);
    Jump(z, s, 0, x);
    assert S.SpreadAll(z, x)
      == S.Vector(S.Half(true, true, false, true, false), S.Half(false, false, false, false, true));
    LowImages();
  }

  lemma Third24(s: nat)
    requires s == 24
    requires Value(s, Lows(0)[..1])
      == S.Vector(S.Half(false, true, false, false, true), S.Half(true, false, true, true, true))
    ensures Value(s, Lows(0)[..3])
      == S.Vector(S.Half(true, false, true, true, true), S.Half(true, true, false, false, false))
  {
    var z1 := Value(s, Lows(0)[..1]);
    Partial24From1(z1, s);
    LowsNext(s, 1, z1);
    var z2 := Value(s, Lows(0)[..2]);
    Partial24From2(z2, s);
    LowsNext(s, 2, z2);
  }

  lemma Fifth24(s: nat)
    requires s == 24
    requires Value(s, Lows(0)[..3])
      == S.Vector(S.Half(true, false, true, true, true), S.Half(true, true, false, false, false))
    ensures Value(s, Lows(0)[..5])
      == S.Vector(S.Half(false, false, true, false, true), S.Half(false, true, true, false, false))
  {
    var z3 := Value(s, Lows(0)[..3]);
    Partial24From3(z3, s);
    LowsNext(s, 3, z3);
    var z4 := Value(s, Lows(0)[..4]);
    Partial24From4(z4, s);
    LowsNext(s, 4, z4);
  }

  lemma Root24(s: nat)
    requires s == 24
    ensures Root(s)
  {
    LowsEnds(s);
    Third24(s);
    Fifth24(s);
    var z := Value(s, Lows(0)[..5]);
    Partial24From5(z, s);
    LowsNext(s, 5, z);
    SixSteps(s, 144);
    S.Power144();
  }

  lemma Partial25From1(z: S.Vector, s: nat)
    requires s == 25 && z == S.Vector(S.Half(false, true, false, false, true), S.Half(true, false, true, true, true))
    ensures S.Sum(S.Ups(z, s), Image(Low(1)))
      == S.Vector(S.Half(true, false, true, false, true), S.Half(false, true, true, true, false))
  {
    var x := COLUMNS[1..11];
    Columns(x, 1);
    Jump(z, s, 1, x);
    assert S.SpreadAll(z, x)
      == S.Vector(S.Half(false, false, false, false, true), S.Half(true, false, false, true, false));
    LowImages();
  }

  lemma Partial25From2(z: S.Vector, s: nat)
    requires s == 25 && z == S.Vector(S.Half(true, false, true, false, true), S.Half(false, true, true, true, false))
    ensures S.Sum(S.Ups(z, s), Image(Low(2)))
      == S.Vector(S.Half(true, false, true, true, false), S.Half(true, false, true, true, true))
  {
    var x := COLUMNS[1..11];
    Columns(x, 1);
    Jump(z, s, 1, x);
    assert S.SpreadAll(z, x)
      == S.Vector(S.Half(false, true, true, false, false), S.Half(false, true, false, true, true));
    LowImages();
  }

  lemma Partial25From3(z: S.Vector, s: nat)
    requires s == 25 && z == S.Vector(S.Half(true, false, true, true, false), S.Half(true, false, true, true, true))
    ensures S.Sum(S.Ups(z, s), Image(Low(3)))
      == S.Vector(S.Half(true, false, false, true, false), S.Half(true, true, false, false, false))
  {
    var x := COLUMNS[1..11];
    Columns(x, 1);
    Jump(z, s, 1, x);
    assert S.SpreadAll(z, x)
      == S.Vector(S.Half(true, true, false, false, false), S.Half(false, false, true, false, false));
    LowImages();
  }

  lemma Partial25From4(z: S.Vector, s: nat)
    requires s == 25 && z == S.Vector(S.Half(true, false, false, true, false), S.Half(true, true, false, false, false))
    ensures S.Sum(S.Ups(z, s), Image(Low(4)))
      == S.Vector(S.Half(true, true, true, true, true), S.Half(false, true, true, true, true))
  {
    var x := COLUMNS[1..11];
    Columns(x, 1);
    Jump(z, s, 1, x);
    assert S.SpreadAll(z, x)
      == S.Vector(S.Half(true, false, true, true, false), S.Half(true, true, false, false, false));
    LowImages();
  }

  lemma Partial25From5(z: S.Vector, s: nat)
    requires s == 25 && z == S.Vector(S.Half(true, true, true, true, true), S.Half(false, true, true, true, true))
    ensures S.Sum(S.Ups(z, s), Image(Low(5)))
      == S.Vector(S.Half(false, true, true, false, false), S.Half(true, false, true, false, false))
  {
    var x := COLUMNS[1..11];
    Columns(x, 1);
    Jump(z, s, 1, x);
    assert S.SpreadAll(z, x)
      == S.Vector(S.Half(true, true, true, false, true), S.Half(false, false, false, false, false));
    LowImages();
  }

  lemma Third25(s: nat)
    requires s == 25
    requires Value(s, Lows(0)[..1])
      == S.Vector(S.Half(false, true, false, false, true), S.Half(true, false, true, true, true))
    ensures Value(s, Lows(0)[..3])
      == S.Vector(S.Half(true, false, true, true, false), S.Half(true, false, true, true, true))
  {
    var z1 := Value(s, Lows(0)[..1]);
    Partial25From1(z1, s);
    LowsNext(s, 1, z1);
    var z2 := Value(s, Lows(0)[..2]);
    Partial25From2(z2, s);
    LowsNext(s, 2, z2);
  }

  lemma Fifth25(s: nat)
    requires s == 25
    requires Value(s, Lows(0)[..3])
      == S.Vector(S.Half(true, false, true, true, false), S.Half(true, false, true, true, true))
    ensures Value(s, Lows(0)[..5])
      == S.Vector(S.Half(true, true, true, true, true), S.Half(false, true, true, true, true))
  {
    var z3 := Value(s, Lows(0)[..3]);
    Partial25From3(z3, s);
    LowsNext(s, 3, z3);
    var z4 := Value(s, Lows(0)[..4]);
    Partial25From4(z4, s);
    LowsNext(s, 4, z4);
  }

  lemma Root25(s: nat)
    requires s == 25
    ensures Root(s)
  {
    LowsEnds(s);
    Third25(s);
    Fifth25(s);
    var z := Value(s, Lows(0)[..5]);
    Partial25From5(z, s);
    LowsNext(s, 5, z);
    SixSteps(s, 150);
    S.Power150();
  }

  lemma Partial26From1(z: S.Vector, s: nat)
    requires s == 26 && z == S.Vector(S.Half(false, true, false, false, true), S.Half(true, false, true, true, true))
    ensures S.Sum(S.Ups(z, s), Image(Low(1)))
      == S.Vector(S.Half(true, false, true, false, false), S.Half(false, false, true, false, true))
  {
    var x := COLUMNS[2..12];
    Columns(x, 2);
    Jump(z, s, 2, x);
    assert S.SpreadAll(z, x)
      == S.Vector(S.Half(false, false, false, false, false), S.Half(true, true, false, false, true));
    LowImages();
  }

  lemma Partial26From2(z: S.Vector, s: nat)
    requires s == 26 && z == S.Vector(S.Half(true, false, true, false, false), S.Half(false, false, true, false, true))
    ensures S.Sum(S.Ups(z, s), Image(Low(2)))
      == S.Vector(S.Half(false, true, false, true, false), S.Half(true, false, true, false, false))
  {
    var x := COLUMNS[2..12];
    Columns(x, 2);
    Jump(z, s, 2, x);
    assert S.SpreadAll(z, x)
      == S.Vector(S.Half(true, false, false, false, false), S.Half(false, true, false, false, false));
    LowImages();
  }

  lemma Partial26From3(z: S.Vector, s: nat)
    requires s == 26 && z == S.Vector(S.Half(false, true, false, true, false), S.Half(true, false, true, false, false))
    ensures S.Sum(S.Ups(z, s), Image(Low(3)))
      == S.Vector(S.Half(true, true, true, false, true), S.Half(true, false, false, true, false))
  {
    var x := COLUMNS[2..12];
    Columns(x, 2);
    Jump(z, s, 2, x);
    assert S.SpreadAll(z, x) == S.Vector(S.Half(true, false, true, true, true), S.Half(false, true, true, true, false));
    LowImages();
  }

  lemma Partial26From4(z: S.Vector, s: nat)
    requires s == 26 && z == S.Vector(S.Half(true, true, true, false, true), S.Half(true, false, false, true, false))
    ensures S.Sum(S.Ups(z, s), Image(Low(4)))
      == S.Vector(S.Half(true, true, false, false, true), S.Half(false, false, true, true, false))
  {
    var x := COLUMNS[2..12];
    Columns(x, 2);
    Jump(z, s, 2, x);
    assert S.SpreadAll(z, x)
      == S.Vector(S.Half(true, false, false, false, false), S.Half(true, false, false, false, true));
    LowImages();
  }

  lemma Partial26From5(z: S.Vector, s: nat)
    requires s == 26 && z == S.Vector(S.Half(true, true, false, false, true), S.Half(false, false, true, true, false))
    ensures S.Sum(S.Ups(z, s), Image(Low(5)))
      == S.Vector(S.Half(false, false, false, true, true), S.Half(false, false, true, false, false))
  {
    var x := COLUMNS[2..12];
    Columns(x, 2);
    Jump(z, s, 2, x);
    assert S.SpreadAll(z, x)
      == S.Vector(S.Half(true, false, false, true, false), S.Half(true, false, false, false, false));
    LowImages();
  }

  lemma Third26(s: nat)
    requires s == 26
    requires Value(s, Lows(0)[..1])
      == S.Vector(S.Half(false, true, false, false, true), S.Half(true, false, true, true, true))
    ensures Value(s, Lows(0)[..3])
      == S.Vector(S.Half(false, true, false, true, false), S.Half(true, false, true, false, false))
  {
    var z1 := Value(s, Lows(0)[..1]);
    Partial26From1(z1, s);
    LowsNext(s, 1, z1);
    var z2 := Value(s, Lows(0)[..2]);
    Partial26From2(z2, s);
    LowsNext(s, 2, z2);
  }

  lemma Fifth26(s: nat)
    requires s == 26
    requires Value(s, Lows(0)[..3])
      == S.Vector(S.Half(false, true, false, true, false), S.Half(true, false, true, false, false))
    ensures Value(s, Lows(0)[..5])
      == S.Vector(S.Half(true, true, false, false, true), S.Half(false, false, true, true, false))
  {
    var z3 := Value(s, Lows(0)[..3]);
    Partial26From3(z3, s);
    LowsNext(s, 3, z3);
    var z4 := Value(s, Lows(0)[..4]);
    Partial26From4(z4, s);
    LowsNext(s, 4, z4);
  }

  lemma Root26(s: nat)
    requires s == 26
    ensures Root(s)
  {
    LowsEnds(s);
    Third26(s);
    Fifth26(s);
    var z := Value(s, Lows(0)[..5]);
    Partial26From5(z, s);
    LowsNext(s, 5, z);
    SixSteps(s, 156);
    S.Power156();
  }

  lemma SixSteps(s: nat, n: nat)
    requires n == 6 * s
    ensures Steps(s, 6) == n
  {
    assert Steps(s, 1) == s;
    assert Steps(s, 2) == 2 * s;
    assert Steps(s, 3) == 3 * s;
    assert Steps(s, 4) == 4 * s;
    assert Steps(s, 5) == 5 * s;
  }

  // ---- a step of the register, evaluated at a root

  lemma LowsDouble(n: nat)
    ensures Lows(n + 1) == DoubleAll(Lows(n))
  {
  }

  lemma {:induction false} ScaledRoot(s: nat, n: nat)
    requires Root(s) && n < 5
    ensures Value(s, Lows(n)) == S.Ups(IMAGES[n], Steps(s, 6))
  {
    if n > 0 {
      var m := n - 1;
      ScaledRoot(s, m);
      ScaledNext(s, m, IMAGES[m], Steps(s, 6));
    }
  }

  lemma ScaledNext(s: nat, n: nat, z: S.Vector, d: nat)
    requires n < 4 && z == IMAGES[n] && Value(s, Lows(n)) == S.Ups(z, d)
    ensures Value(s, Lows(n + 1)) == S.Ups(IMAGES[n + 1], d)
  {
    LowsDouble(n);
    ValueDouble(s, Lows(n));
    TwofoldUps(z, d);
    TwofoldImage(n, z);
  }

  /** The first n terms of d times x^6 modulo g(x). */
  function Scaled(d: Element, n: nat): seq<Element>
    requires n <= 5
  {
    seq(6, j requires 0 <= j < 6 => Terms(d, Low(j), n))
  }

  function Noughts(n: nat): seq<Element> { seq(n, _ => NOUGHT) }

  lemma {:induction false} ValueNoughts(s: nat, n: nat)
    ensures Value(s, Noughts(n)) == S.NIL
  {
    if n > 0 {
      ValueNoughts(s, n - 1);
      assert Noughts(n)[..n - 1] == Noughts(n - 1);
      S.UpsZero(s);
      ImageIs(NOUGHT);
    }
  }

  lemma {:induction false} ScaledValue(s: nat, d: Element, n: nat)
    requires Root(s) && n <= 5
    ensures Value(s, Scaled(d, n)) == S.Ups(ImageTo(d, n), Steps(s, 6))
  {
    if n == 0 {
      assert Scaled(d, 0) == Noughts(6);
      ValueNoughts(s, 6);
      S.UpsZero(Steps(s, 6));
    } else {
      var f := if d[n - 1] then Lows(n - 1) else Noughts(6);
      assert Scaled(d, n) == AddAll(Scaled(d, n - 1), f);
      ScaledValue(s, d, n - 1);
      ScaledRoot(s, n - 1);
      ValueNoughts(s, 6);
      S.UpsZero(Steps(s, 6));
      ValueAdd(s, Scaled(d, n - 1), f);
      S.UpsLinear(ImageTo(d, n - 1), S.If(d[n - 1], IMAGES[n - 1]), Steps(s, 6));
    }
  }

  lemma NextIsSum(r: seq<Element>, e: Element)
    requires |r| == 6
    ensures Next(r, e) == AddAll(r[1..] + [e], Scaled(r[0], 5))
  {
  }

  lemma Cancels(a: S.Vector, b: S.Vector, c: S.Vector)
    requires a == S.Sum(b, c)
    ensures S.Sum(c, b) == a
  {
    S.SumCommutes(b, c);
  }

  /** The remainder is evaluated as the polynomial is. */
  lemma NextValue(s: nat, r: seq<Element>, e: Element)
    requires Root(s) && |r| == 6
    ensures Value(s, Next(r, e)) == S.Sum(S.Ups(Value(s, r), s), Image(e))
  {
    var f := r[1..] + [e];
    NextIsSum(r, e);
    ValueAdd(s, f, Scaled(r[0], 5));
    ScaledValue(s, r[0], 5);
    ValueHead(s, r[0], f);
    assert [r[0]] + f == r + [e];
    ValueNext(s, r, e);
    Cancels(Value(s, r + [e]), S.Ups(Image(r[0]), Steps(s, 6)), Value(s, f));
  }

  lemma StepValue(s: nat, c: Word, v: Word)
    requires Root(s) && FiveBits(v)
    ensures Value(s, Unpack(Step(c, v))) == S.Sum(S.Ups(Value(s, Unpack(c)), s), Image(v[..5]))
  {
    StepIsNext(c, v);
    NextValue(s, Unpack(c), v[..5]);
  }
}
