/**
 A vector space of ten bits with an operator whose powers 0 to 1022 are all different, in the
 strong sense that no vector but zero is moved alike by two of them. It is the field of 1024
 elements, in which the generator of the Bech32 code has three roots that are successive powers.
 */
module Bech32Space {
  import opened Powers

  datatype Half = Half(b0: bool, b1: bool, b2: bool, b3: bool, b4: bool)
  datatype Vector = Vector(lo: Half, hi: Half)

  const NIL := Vector(Half(false, false, false, false, false), Half(false, false, false, false, false))
  const ONE := Vector(Half(true, false, false, false, false), Half(false, false, false, false, false))

  predicate Plus(a: bool, b: bool) { a != b }

  function Sum(x: Vector, y: Vector): Vector {
    Vector(Half(Plus(x.lo.b0, y.lo.b0), Plus(x.lo.b1, y.lo.b1), Plus(x.lo.b2, y.lo.b2), Plus(x.lo.b3, y.lo.b3),
                Plus(x.lo.b4, y.lo.b4)),
           Half(Plus(x.hi.b0, y.hi.b0), Plus(x.hi.b1, y.hi.b1), Plus(x.hi.b2, y.hi.b2), Plus(x.hi.b3, y.hi.b3),
                Plus(x.hi.b4, y.hi.b4)))
  }

  /** Multiplication by the primitive element: its tenth power is 1 + its first, fifth and eighth. */
  function Up(z: Vector): Vector {
    Vector(Half(z.hi.b4, Plus(z.lo.b0, z.hi.b4), z.lo.b1, z.lo.b2, z.lo.b3),
           Half(Plus(z.lo.b4, z.hi.b4), z.hi.b0, z.hi.b1, Plus(z.hi.b2, z.hi.b4), z.hi.b3))
  }

  function Ups(z: Vector, n: nat): Vector { if n == 0 then z else Up(Ups(z, n - 1)) }

  lemma SumCommutes(x: Vector, y: Vector)
    ensures Sum(x, y) == Sum(y, x)
  {
  }

  lemma SumAssociates(x: Vector, y: Vector, z: Vector)
    ensures Sum(Sum(x, y), z) == Sum(x, Sum(y, z))
  {
  }

  lemma SumNil(x: Vector)
    ensures Sum(x, NIL) == x && Sum(NIL, x) == x
  {
  }

  lemma SumSelf(x: Vector)
    ensures Sum(x, x) == NIL
  {
  }

  lemma SumCancels(x: Vector, y: Vector)
    requires Sum(x, y) == NIL
    ensures x == y
  {
    SumAssociates(x, y, y);
    SumSelf(y);
    SumNil(y);
    SumNil(x);
  }

  lemma Distributes(a: bool, b: bool, c: bool, d: bool)
    ensures Plus(Plus(a, b), Plus(c, d)) == Plus(Plus(a, c), Plus(b, d))
  {
  }

  lemma UpLinear(a: Vector, b: Vector)
    ensures Up(Sum(a, b)) == Sum(Up(a), Up(b))
  {
    Distributes(a.lo.b0, b.lo.b0, a.hi.b4, b.hi.b4);
    Distributes(a.lo.b4, b.lo.b4, a.hi.b4, b.hi.b4);
    Distributes(a.hi.b2, b.hi.b2, a.hi.b4, b.hi.b4);
  }

  lemma {:induction false} UpsLinear(a: Vector, b: Vector, n: nat)
    ensures Ups(Sum(a, b), n) == Sum(Ups(a, n), Ups(b, n))
  {
    if n > 0 {
      UpsLinear(a, b, n - 1);
      UpLinear(Ups(a, n - 1), Ups(b, n - 1));
    }
  }

  lemma {:induction false} UpsZero(n: nat)
    ensures Ups(NIL, n) == NIL
  {
    if n > 0 {
      UpsZero(n - 1);
    }
  }

  lemma {:induction false} UpsAdd(z: Vector, m: nat, n: nat)
    ensures Ups(Ups(z, m), n) == Ups(z, m + n)
  {
    if n > 0 {
      UpsAdd(z, m, n - 1);
    }
  }

  lemma UpInjective(a: Vector, b: Vector)
    requires Up(a) == Up(b)
    ensures a == b
  {
  }

  lemma {:induction false} UpsInjective(a: Vector, b: Vector, n: nat)
    requires Ups(a, n) == Ups(b, n)
    ensures a == b
  {
    if n > 0 {
      UpInjective(Ups(a, n - 1), Ups(b, n - 1));
      UpsInjective(a, b, n - 1);
    }
  }

  // ---- powers of the primitive element

  function Power(n: nat): Vector { Ups(ONE, n) }

  /** Squaring, which is linear. */
  function Square(z: Vector): Vector {
    Vector(Half(Plus(Plus(Plus(Plus(Plus(z.lo.b0, z.hi.b0), z.hi.b1), z.hi.b2), z.hi.b3), z.hi.b4),
                Plus(Plus(Plus(z.hi.b0, z.hi.b1), z.hi.b2), z.hi.b4),
                Plus(Plus(Plus(z.lo.b1, z.hi.b1), z.hi.b2), z.hi.b4), Plus(Plus(z.hi.b1, z.hi.b2), z.hi.b3),
                Plus(Plus(z.lo.b2, z.hi.b2), z.hi.b3)),
           Half(Plus(z.hi.b0, z.hi.b1), Plus(z.lo.b3, z.hi.b4), Plus(z.hi.b1, z.hi.b2),
                Plus(Plus(Plus(Plus(Plus(z.lo.b4, z.hi.b0), z.hi.b1), z.hi.b2), z.hi.b3), z.hi.b4), z.hi.b2))
  }

  lemma SquareUp(z: Vector)
    ensures Square(Up(z)) == Up(Up(Square(z)))
  {
  }

  lemma {:induction false} SquareOfPower(n: nat)
    ensures Power(2 * n) == Square(Power(n))
  {
    if n > 0 {
      SquareOfPower(n - 1);
      SquareUp(Power(n - 1));
      var m := 2 * n - 1;
      assert Ups(ONE, 2 * n) == Up(Ups(ONE, m)) && Ups(ONE, m) == Up(Ups(ONE, m - 1));
    }
  }

  /** From one power to twice and to twice plus one. */
  lemma NextPowers(n: nat)
    ensures Power(2 * n) == Square(Power(n)) && Power(2 * n + 1) == Up(Square(Power(n)))
  {
    SquareOfPower(n);
  }

  lemma Power144()
    ensures Power(144) == Vector(Half(false, true, false, true, true), Half(true, false, true, false, true))
  {
    assert Power(1) == Up(ONE);
    NextPowers(1);
    NextPowers(2);
    NextPowers(4);
    NextPowers(9);
    NextPowers(18);
    NextPowers(36);
    NextPowers(72);
  }

  lemma Power150()
    ensures Power(150) == Vector(Half(false, true, true, false, false), Half(true, false, true, false, false))
  {
    assert Power(1) == Up(ONE);
    NextPowers(1);
    NextPowers(2);
    NextPowers(4);
    NextPowers(9);
    NextPowers(18);
    NextPowers(37);
    NextPowers(75);
  }

  lemma Power156()
    ensures Power(156) == Vector(Half(false, false, false, true, true), Half(false, false, true, false, false))
  {
    assert Power(1) == Up(ONE);
    NextPowers(1);
    NextPowers(2);
    NextPowers(4);
    NextPowers(9);
    NextPowers(19);
    NextPowers(39);
    NextPowers(78);
  }

  lemma Power24()
    ensures Power(24) == Vector(Half(false, false, false, false, true), Half(true, true, true, true, true))
  {
    assert Power(1) == Up(ONE);
    NextPowers(1);
    NextPowers(3);
    NextPowers(6);
    NextPowers(12);
  }

  lemma Power33()
    ensures Power(33) == Vector(Half(false, false, false, false, true), Half(true, false, true, false, false))
  {
    assert Power(1) == Up(ONE);
    NextPowers(1);
    NextPowers(2);
    NextPowers(4);
    NextPowers(8);
    NextPowers(16);
  }

  lemma Power93()
    ensures Power(93) == Vector(Half(false, true, false, true, false), Half(true, true, false, true, true))
  {
    assert Power(1) == Up(ONE);
    NextPowers(1);
    NextPowers(2);
    NextPowers(5);
    NextPowers(11);
    NextPowers(23);
    NextPowers(46);
  }

  lemma Power341()
    ensures Power(341) == Vector(Half(false, true, true, false, true), Half(true, false, false, false, false))
  {
    assert Power(1) == Up(ONE);
    NextPowers(1);
    NextPowers(2);
    NextPowers(5);
    NextPowers(10);
    NextPowers(21);
    NextPowers(42);
    NextPowers(85);
    NextPowers(170);
  }

  lemma Power1023()
    ensures Power(1023) == Vector(Half(true, false, false, false, false), Half(false, false, false, false, false))
  {
    assert Power(1) == Up(ONE);
    NextPowers(1);
    NextPowers(3);
    NextPowers(7);
    NextPowers(15);
    NextPowers(31);
    NextPowers(63);
    NextPowers(127);
    NextPowers(255);
    NextPowers(511);
  }

  // ---- a linear map that fixes the unit vectors fixes every vector

  function If(b: bool, z: Vector): Vector { if b then z else NIL }

  function Unit(k: nat): Vector {
    Vector(Half(k == 0, k == 1, k == 2, k == 3, k == 4), Half(k == 5, k == 6, k == 7, k == 8, k == 9))
  }

  ghost predicate Additive(f: Vector -> Vector) {
    f(NIL) == NIL && forall x, y :: f(Sum(x, y)) == Sum(f(x), f(y))
  }

  lemma ImageOfSum(f: Vector -> Vector, b: bool, u: Vector, v: Vector)
    requires Additive(f)
    ensures f(Sum(If(b, u), v)) == Sum(If(b, f(u)), f(v))
  {
  }

  /** The sum of those of five vectors that are selected. */
  function Spread(a: bool, b: bool, c: bool, d: bool, e: bool, x: Vector, y: Vector, z: Vector, v: Vector, w: Vector):
    Vector
  {
    Sum(If(a, x), Sum(If(b, y), Sum(If(c, z), Sum(If(d, v), Sum(If(e, w), NIL)))))
  }

  lemma ImageOfLow(f: Vector -> Vector, z: Vector)
    requires Additive(f)
    ensures f(Vector(Half(z.lo.b0, z.lo.b1, z.lo.b2, z.lo.b3, z.lo.b4), Half(false, false, false, false, false)))
      == Spread(z.lo.b0, z.lo.b1, z.lo.b2, z.lo.b3, z.lo.b4, f(Unit(0)), f(Unit(1)), f(Unit(2)), f(Unit(3)), f(Unit(4)))
  {
    assert Unit(4) == Vector(Half(false, false, false, false, true), Half(false, false, false, false, false));
    ImageOfSum(f, z.lo.b4, Unit(4), NIL);
    assert Vector(Half(false, false, false, false, z.lo.b4), Half(false, false, false, false, false))
      == Sum(If(z.lo.b4, Unit(4)), NIL);
    assert Unit(3) == Vector(Half(false, false, false, true, false), Half(false, false, false, false, false));
    ImageOfSum(f, z.lo.b3, Unit(3), Vector(Half(false, false, false, false, z.lo.b4),
                                           Half(false, false, false, false, false)));
    assert Vector(Half(false, false, false, z.lo.b3, z.lo.b4), Half(false, false, false, false, false))
      == Sum(If(z.lo.b3, Unit(3)),
             Vector(Half(false, false, false, false, z.lo.b4), Half(false, false, false, false, false)));
    assert Unit(2) == Vector(Half(false, false, true, false, false), Half(false, false, false, false, false));
    ImageOfSum(f, z.lo.b2, Unit(2), Vector(Half(false, false, false, z.lo.b3, z.lo.b4),
                                           Half(false, false, false, false, false)));
    assert Vector(Half(false, false, z.lo.b2, z.lo.b3, z.lo.b4), Half(false, false, false, false, false))
      == Sum(If(z.lo.b2, Unit(2)),
             Vector(Half(false, false, false, z.lo.b3, z.lo.b4), Half(false, false, false, false, false)));
    assert Unit(1) == Vector(Half(false, true, false, false, false), Half(false, false, false, false, false));
    ImageOfSum(f, z.lo.b1, Unit(1), Vector(Half(false, false, z.lo.b2, z.lo.b3, z.lo.b4),
                                           Half(false, false, false, false, false)));
    assert Vector(Half(false, z.lo.b1, z.lo.b2, z.lo.b3, z.lo.b4), Half(false, false, false, false, false))
      == Sum(If(z.lo.b1, Unit(1)),
             Vector(Half(false, false, z.lo.b2, z.lo.b3, z.lo.b4), Half(false, false, false, false, false)));
    assert Unit(0) == Vector(Half(true, false, false, false, false), Half(false, false, false, false, false));
    ImageOfSum(f, z.lo.b0, Unit(0), Vector(Half(false, z.lo.b1, z.lo.b2, z.lo.b3, z.lo.b4),
                                           Half(false, false, false, false, false)));
    assert Vector(Half(z.lo.b0, z.lo.b1, z.lo.b2, z.lo.b3, z.lo.b4), Half(false, false, false, false, false))
      == Sum(If(z.lo.b0, Unit(0)),
             Vector(Half(false, z.lo.b1, z.lo.b2, z.lo.b3, z.lo.b4), Half(false, false, false, false, false)));
  }

  lemma ImageOfHigh(f: Vector -> Vector, z: Vector)
    requires Additive(f)
    ensures f(Vector(Half(false, false, false, false, false), Half(z.hi.b0, z.hi.b1, z.hi.b2, z.hi.b3, z.hi.b4)))
      == Spread(z.hi.b0, z.hi.b1, z.hi.b2, z.hi.b3, z.hi.b4, f(Unit(5)), f(Unit(6)), f(Unit(7)), f(Unit(8)), f(Unit(9)))
  {
    assert Unit(9) == Vector(Half(false, false, false, false, false), Half(false, false, false, false, true));
    ImageOfSum(f, z.hi.b4, Unit(9), NIL);
    assert Vector(Half(false, false, false, false, false), Half(false, false, false, false, z.hi.b4))
      == Sum(If(z.hi.b4, Unit(9)), NIL);
    assert Unit(8) == Vector(Half(false, false, false, false, false), Half(false, false, false, true, false));
    ImageOfSum(f, z.hi.b3, Unit(8), Vector(Half(false, false, false, false, false),
                                           Half(false, false, false, false, z.hi.b4)));
    assert Vector(Half(false, false, false, false, false), Half(false, false, false, z.hi.b3, z.hi.b4))
      == Sum(If(z.hi.b3, Unit(8)),
             Vector(Half(false, false, false, false, false), Half(false, false, false, false, z.hi.b4)));
    assert Unit(7) == Vector(Half(false, false, false, false, false), Half(false, false, true, false, false));
    ImageOfSum(f, z.hi.b2, Unit(7), Vector(Half(false, false, false, false, false),
                                           Half(false, false, false, z.hi.b3, z.hi.b4)));
    assert Vector(Half(false, false, false, false, false), Half(false, false, z.hi.b2, z.hi.b3, z.hi.b4))
      == Sum(If(z.hi.b2, Unit(7)),
             Vector(Half(false, false, false, false, false), Half(false, false, false, z.hi.b3, z.hi.b4)));
    assert Unit(6) == Vector(Half(false, false, false, false, false), Half(false, true, false, false, false));
    ImageOfSum(f, z.hi.b1, Unit(6), Vector(Half(false, false, false, false, false),
                                           Half(false, false, z.hi.b2, z.hi.b3, z.hi.b4)));
    assert Vector(Half(false, false, false, false, false), Half(false, z.hi.b1, z.hi.b2, z.hi.b3, z.hi.b4))
      == Sum(If(z.hi.b1, Unit(6)),
             Vector(Half(false, false, false, false, false), Half(false, false, z.hi.b2, z.hi.b3, z.hi.b4)));
    assert Unit(5) == Vector(Half(false, false, false, false, false), Half(true, false, false, false, false));
    ImageOfSum(f, z.hi.b0, Unit(5), Vector(Half(false, false, false, false, false),
                                           Half(false, z.hi.b1, z.hi.b2, z.hi.b3, z.hi.b4)));
    assert Vector(Half(false, false, false, false, false), Half(z.hi.b0, z.hi.b1, z.hi.b2, z.hi.b3, z.hi.b4))
      == Sum(If(z.hi.b0, Unit(5)),
             Vector(Half(false, false, false, false, false), Half(false, z.hi.b1, z.hi.b2, z.hi.b3, z.hi.b4)));
  }

  lemma Halves(z: Vector, low: Vector, high: Vector)
    requires low == Vector(Half(z.lo.b0, z.lo.b1, z.lo.b2, z.lo.b3, z.lo.b4), Half(false, false, false, false, false))
    requires high == Vector(Half(false, false, false, false, false), Half(z.hi.b0, z.hi.b1, z.hi.b2, z.hi.b3, z.hi.b4))
    ensures Sum(low, high) == z
  {
    assert z
      == Vector(Half(z.lo.b0, z.lo.b1, z.lo.b2, z.lo.b3, z.lo.b4), Half(z.hi.b0, z.hi.b1, z.hi.b2, z.hi.b3, z.hi.b4));
  }

  /** A linear map is determined by the images of the unit vectors. */
  lemma ImageSpreads(f: Vector -> Vector, z: Vector)
    requires Additive(f)
    ensures f(z) == Sum(Spread(z.lo.b0, z.lo.b1, z.lo.b2, z.lo.b3, z.lo.b4,
                               f(Unit(0)), f(Unit(1)), f(Unit(2)), f(Unit(3)), f(Unit(4))),
                        Spread(z.hi.b0, z.hi.b1, z.hi.b2, z.hi.b3, z.hi.b4,
                               f(Unit(5)), f(Unit(6)), f(Unit(7)), f(Unit(8)), f(Unit(9))))
  {
    var low := Vector(Half(z.lo.b0, z.lo.b1, z.lo.b2, z.lo.b3, z.lo.b4), Half(false, false, false, false, false));
    var high := Vector(Half(false, false, false, false, false), Half(z.hi.b0, z.hi.b1, z.hi.b2, z.hi.b3, z.hi.b4));
    ImageOfLow(f, z);
    ImageOfHigh(f, z);
    Halves(z, low, high);
  }

  lemma FixesAll(f: Vector -> Vector, z: Vector)
    requires Additive(f) && forall i :: 0 <= i < 10 ==> f(Unit(i)) == Unit(i)
    ensures f(z) == z
  {
    var id := (x: Vector) => x;
    ImageSpreads(f, z);
    ImageSpreads(id, z);
  }

  lemma {:induction false} UnitIsPower(k: nat)
    requires k < 10
    ensures Unit(k) == Power(k)
  {
    if k > 0 {
      UnitIsPower(k - 1);
    }
  }

  // ---- the operator has order 1023

  lemma UpsAdditive(n: nat)
    ensures Additive(z => Ups(z, n))
  {
    UpsZero(n);
    forall x, y
      ensures Ups(Sum(x, y), n) == Sum(Ups(x, n), Ups(y, n))
    {
      UpsLinear(x, y, n);
    }
  }

  lemma UnitMoves(k: nat, n: nat)
    requires k < 10
    ensures Ups(Unit(k), n) == Power(n + k)
  {
    UnitIsPower(k);
    UpsAdd(ONE, k, n);
  }

  function SpreadAll(z: Vector, x: seq<Vector>): Vector
    requires |x| == 10
  {
    Sum(Spread(z.lo.b0, z.lo.b1, z.lo.b2, z.lo.b3, z.lo.b4, x[0], x[1], x[2], x[3], x[4]),
        Spread(z.hi.b0, z.hi.b1, z.hi.b2, z.hi.b3, z.hi.b4, x[5], x[6], x[7], x[8], x[9]))
  }

  lemma SpreadsBy(f: Vector -> Vector, z: Vector, x: seq<Vector>)
    requires Additive(f) && |x| == 10 && forall i :: 0 <= i < 10 ==> x[i] == f(Unit(i))
    ensures f(z) == SpreadAll(z, x)
  {
    ImageSpreads(f, z);
  }

  /** n steps, on any vector, from the ten powers that they take the unit vectors to. */
  lemma UpsSpreads(z: Vector, n: nat, x: seq<Vector>)
    requires |x| == 10 && forall i :: 0 <= i < 10 ==> x[i] == Power(n + i)
    ensures Ups(z, n) == SpreadAll(z, x)
  {
    var f := (y: Vector) => Ups(y, n);
    UpsAdditive(n);
    forall i | 0 <= i < 10
      ensures x[i] == f(Unit(i))
    {
      UnitMoves(i, n);
    }
    SpreadsBy(f, z, x);
  }

  /** After 1023 steps every vector is back. */
  lemma Returns(z: Vector)
    ensures Ups(z, 1023) == z
  {
    var n := 1023;
    UpsAdditive(n);
    forall i | 0 <= i < 10
      ensures Ups(Unit(i), n) == Unit(i)
    {
      UnitIsPower(i);
      UpsAdd(ONE, i, n);
      UpsAdd(ONE, n, i);
      Power1023();
    }
    FixesAll(x => Ups(x, n), z);
  }

  /** The sum of those of z, Up(z), Up(Up(z)), ... that the bits select. */
  function Combined(bits: seq<bool>, z: Vector): Vector {
    if bits == [] then NIL else Sum(If(bits[0], z), Combined(bits[1..], Up(z)))
  }

  lemma UpIf(b: bool, z: Vector)
    ensures Up(If(b, z)) == If(b, Up(z))
  {
  }

  lemma {:induction false} UpCombined(bits: seq<bool>, z: Vector)
    ensures Up(Combined(bits, z)) == Combined(bits, Up(z))
    decreases |bits|
  {
    if bits != [] {
      UpCombined(bits[1..], Up(z));
      UpIf(bits[0], z);
      UpLinear(If(bits[0], z), Combined(bits[1..], Up(z)));
    }
  }

  lemma {:induction false} CombinedUps(bits: seq<bool>, z: Vector, n: nat)
    ensures Combined(bits, Ups(z, n)) == Ups(Combined(bits, z), n)
  {
    if n > 0 {
      CombinedUps(bits, z, n - 1);
      UpCombined(bits, Ups(z, n - 1));
    }
  }

  lemma SumFour(a: Vector, b: Vector, c: Vector, d: Vector)
    ensures Sum(Sum(a, b), Sum(c, d)) == Sum(Sum(a, c), Sum(b, d))
  {
  }

  lemma IfSum(b: bool, x: Vector, y: Vector)
    ensures If(b, Sum(x, y)) == Sum(If(b, x), If(b, y))
  {
    SumNil(NIL);
  }

  lemma {:induction false} CombinedSum(bits: seq<bool>, x: Vector, y: Vector)
    ensures Combined(bits, Sum(x, y)) == Sum(Combined(bits, x), Combined(bits, y))
    decreases |bits|
  {
    if bits == [] {
      SumNil(NIL);
    } else {
      UpLinear(x, y);
      CombinedSum(bits[1..], Up(x), Up(y));
      IfSum(bits[0], x, y);
      SumFour(If(bits[0], x), If(bits[0], y), Combined(bits[1..], Up(x)), Combined(bits[1..], Up(y)));
    }
  }

  /** What the inverse of the difference between the n-th power and one makes of that difference. */
  function Undone(bits: seq<bool>, n: nat, z: Vector): Vector { Combined(bits, Sum(Ups(z, n), z)) }

  lemma UndoneSum(bits: seq<bool>, n: nat, x: Vector, y: Vector)
    ensures Undone(bits, n, Sum(x, y)) == Sum(Undone(bits, n, x), Undone(bits, n, y))
  {
    UpsLinear(x, y, n);
    SumFour(Ups(x, n), Ups(y, n), x, y);
    CombinedSum(bits, Sum(Ups(x, n), x), Sum(Ups(y, n), y));
  }

  lemma UndoneUp(bits: seq<bool>, n: nat, z: Vector)
    ensures Undone(bits, n, Up(z)) == Up(Undone(bits, n, z))
  {
    UpsAdd(z, 1, n);
    UpsAdd(z, n, 1);
    assert Ups(z, 1) == Up(z) && Ups(Ups(z, n), 1) == Up(Ups(z, n));
    UpLinear(Ups(z, n), z);
    UpCombined(bits, Sum(Ups(z, n), z));
  }

  lemma {:induction false} UndoneUnit(bits: seq<bool>, n: nat, k: nat)
    requires Undone(bits, n, ONE) == ONE
    ensures Undone(bits, n, Power(k)) == Power(k)
  {
    if k > 0 {
      UndoneUnit(bits, n, k - 1);
      UndoneUp(bits, n, Power(k - 1));
    }
  }

  lemma {:induction false} CombinedNil(bits: seq<bool>)
    ensures Combined(bits, NIL) == NIL
    decreases |bits|
  {
    if bits != [] {
      CombinedNil(bits[1..]);
    }
  }

  /** If the difference has an inverse, no vector but zero is the same after n steps. */
  lemma NoneStays(bits: seq<bool>, n: nat, z: Vector)
    requires Undone(bits, n, ONE) == ONE && Ups(z, n) == z
    ensures z == NIL
  {
    UndoneAdditive(bits, n);
    forall i | 0 <= i < 10
      ensures Undone(bits, n, Unit(i)) == Unit(i)
    {
      UnitIsPower(i);
      UndoneUnit(bits, n, i);
    }
    FixesAll(x => Undone(bits, n, x), z);
    UndoneStays(bits, n, z);
  }

  lemma UndoneAdditive(bits: seq<bool>, n: nat)
    ensures Additive(z => Undone(bits, n, z))
  {
    UpsZero(n);
    UndoneStays(bits, n, NIL);
    forall x, y
      ensures Undone(bits, n, Sum(x, y)) == Sum(Undone(bits, n, x), Undone(bits, n, y))
    {
      UndoneSum(bits, n, x, y);
    }
  }

  lemma UndoneStays(bits: seq<bool>, n: nat, z: Vector)
    requires Ups(z, n) == z
    ensures Undone(bits, n, z) == NIL
  {
    SumSelf(z);
    CombinedNil(bits);
  }

  const INVERSE33 := [false, true, true, true, true, true, false, true, false, false]
  const INVERSE93 := [true, true, false, false, true, false, true, true, false, false]
  const INVERSE341 := [false, true, true, false, true, true, false, false, false, false]

  lemma Undone33()
    ensures Undone(INVERSE33, 33, ONE) == ONE
  {
    Power33();
  }

  lemma Undone93()
    ensures Undone(INVERSE93, 93, ONE) == ONE
  {
    Power93();
  }

  lemma Undone341()
    ensures Undone(INVERSE341, 341, ONE) == ONE
  {
    Power341();
  }

  // ---- no two of the first 1023 powers move a vector alike

  lemma StaysLess(z: Vector, m: nat, n: nat)
    requires Ups(z, m) == z && Ups(z, n) == z && n <= m
    ensures Ups(z, m - n) == z
  {
    UpsAdd(z, m - n, n);
    UpsInjective(Ups(z, m - n), z, n);
  }

  lemma {:induction false} StaysTimes(z: Vector, n: nat, k: nat, m: nat)
    requires Ups(z, n) == z && m == n * k
    ensures Ups(z, m) == z
    decreases k
  {
    if k > 0 {
      assert n * k == n * (k - 1) + n;
      StaysTimes(z, n, k - 1, m - n);
      UpsAdd(z, m - n, n);
    }
  }

  /** A vector that is the same after m and after n steps is so after their greatest common divisor. */
  lemma {:induction false} StaysAtDivisor(z: Vector, m: nat, n: nat) returns (d: nat, j: nat, k: nat)
    requires Ups(z, m) == z && Ups(z, n) == z && m > 0 && n > 0
    ensures 0 < d && Ups(z, d) == z && m == d * j && n == d * k
    decreases m + n
  {
    if m == n {
      d, j, k := m, 1, 1;
    } else if m > n {
      StaysLess(z, m, n);
      d, j, k := StaysAtDivisor(z, m - n, n);
      assert d * (j + k) == d * j + d * k;
      j := j + k;
    } else {
      StaysLess(z, n, m);
      d, j, k := StaysAtDivisor(z, m, n - m);
      assert d * (j + k) == d * j + d * k;
      k := j + k;
    }
  }

  lemma SmallDivisor(a: nat, b: nat)
    requires a * b == 1023 && a <= 31
    ensures a == 1 || a == 3 || a == 11 || a == 31
  {
    assert a > 0;
    DivMulExact(b, a);
    assert 1023 % 2 != 0 && 1023 % 4 != 0 && 1023 % 5 != 0 && 1023 % 6 != 0 && 1023 % 7 != 0 && 1023 % 8 != 0 &&
      1023 % 9 != 0 && 1023 % 10 != 0 && 1023 % 12 != 0 && 1023 % 13 != 0 && 1023 % 14 != 0 && 1023 % 15 != 0 &&
      1023 % 16 != 0 && 1023 % 17 != 0 && 1023 % 18 != 0 && 1023 % 19 != 0 && 1023 % 20 != 0 && 1023 % 21 != 0 &&
      1023 % 22 != 0 && 1023 % 23 != 0 && 1023 % 24 != 0 && 1023 % 25 != 0 && 1023 % 26 != 0 && 1023 % 27 != 0 &&
      1023 % 28 != 0 && 1023 % 29 != 0 && 1023 % 30 != 0;
    assert a == 2 || a == 4 || a == 5 || a == 6 || a == 7 || a == 8 || a == 9 || a == 10 || a == 12 || a == 13 ||
      a == 14 || a == 15 || a == 16 || a == 17 || a == 18 || a == 19 || a == 20 || a == 21 || a == 22 || a == 23 ||
      a == 24 || a == 25 || a == 26 || a == 27 || a == 28 || a == 29 || a == 30 || a == 1 || a == 3 || a == 11 ||
      a == 31;
  }

  /** A proper divisor of 1023 divides 33, 93 or 341. */
  lemma ProperDivisor(d: nat, j: nat) returns (n: nat, k: nat)
    requires d * j == 1023 && d < 1023
    ensures (n == 33 || n == 93 || n == 341) && n == d * k
  {
    if d <= 31 {
      SmallDivisor(d, j);
      if d == 31 {
        n, k := 93, 3;
      } else if d == 11 {
        n, k := 33, 3;
      } else if d == 3 {
        n, k := 33, 11;
      } else {
        n, k := 33, 33;
      }
    } else {
      if j > 31 {
        MulMonotone(32, d, j);
        MulMonotone(32, j, 32);
      }
      SmallDivisor(j, d);
      n, k := d, 1;
    }
  }

  /** No vector but zero is the same after n steps, unless n is a multiple of 1023. */
  lemma Moves(z: Vector, n: nat)
    requires 0 < n < 1023 && Ups(z, n) == z
    ensures z == NIL
  {
    Returns(z);
    var whole := 1023;
    var d, j, k := StaysAtDivisor(z, whole, n);
    if k > 0 {
      MulMonotone(1, k, d);
    }
    var m, l := ProperDivisor(d, j);
    StaysTimes(z, d, l, m);
    if m == 33 {
      Undone33();
      NoneStays(INVERSE33, m, z);
    } else if m == 93 {
      Undone93();
      NoneStays(INVERSE93, m, z);
    } else {
      Undone341();
      NoneStays(INVERSE341, m, z);
    }
  }

  /** Two different numbers of steps below 1023 take only zero to the same place. */
  lemma Separates(z: Vector, m: nat, n: nat)
    requires m < 1023 && n < 1023 && m != n && Ups(z, m) == Ups(z, n)
    ensures z == NIL
  {
    var a, b := if m < n then m else n, if m < n then n else m;
    UpsAdd(z, b - a, a);
    UpsInjective(Ups(z, b - a), z, a);
    Moves(z, b - a);
  }

  // ---- three vectors that vanish together at three successive powers vanish

  lemma Third(x: Vector, y: Vector, z: Vector)
    requires Sum(Sum(x, y), z) == NIL
    ensures z == Sum(x, y)
  {
    SumCancels(Sum(x, y), z);
  }

  lemma Regroup(x: Vector, y: Vector, u: Vector, v: Vector)
    requires Sum(Sum(x, y), Sum(u, v)) == NIL
    ensures Sum(x, u) == Sum(y, v)
  {
    SumFour(x, y, u, v);
    SumCancels(Sum(x, u), Sum(y, v));
  }

  lemma Vandermonde(x: Vector, y: Vector, z: Vector, a: nat, b: nat, c: nat)
    requires a < 1023 && b < 1023 && c < 1023 && a != b && a != c
    requires Sum(Sum(x, y), z) == NIL
    requires Sum(Sum(Ups(x, a), Ups(y, b)), Ups(z, c)) == NIL
    requires Sum(Sum(Ups(x, a + a), Ups(y, b + b)), Ups(z, c + c)) == NIL
    ensures x == NIL
  {
    var p, q := Sum(Ups(x, a), Ups(x, c)), Sum(Ups(y, b), Ups(y, c));
    Third(x, y, z);
    UpsLinear(x, y, c);
    Regroup(Ups(x, a), Ups(y, b), Ups(x, c), Ups(y, c));
    Third(Ups(x, a), Ups(y, b), Ups(z, c));
    UpsAdd(z, c, c);
    UpsLinear(Ups(x, a), Ups(y, b), c);
    UpsAdd(x, a, c);
    UpsAdd(y, b, c);
    Regroup(Ups(x, a + a), Ups(y, b + b), Ups(x, a + c), Ups(y, b + c));
    MovedPair(x, a, c);
    MovedPair(y, b, c);
    Separates(p, a, b);
    SumCancels(Ups(x, a), Ups(x, c));
    Separates(x, a, c);
  }

  lemma MovedPair(x: Vector, a: nat, c: nat)
    ensures Ups(Sum(Ups(x, a), Ups(x, c)), a) == Sum(Ups(x, a + a), Ups(x, a + c))
  {
    UpsLinear(Ups(x, a), Ups(x, c), a);
    UpsAdd(x, a, a);
    UpsAdd(x, c, a);
  }
}
