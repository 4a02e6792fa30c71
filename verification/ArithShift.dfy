/** Shifts of limb arrays. */
module ArithShift {
  import opened Powers
  import opened Limbs
  import opened Arith

  // ---- shifts

  /** p shifted left by k limbs and a factor f, its lowest i limbs so far, modulo the span of s. */
  ghost predicate Shifting(p: seq<Limb>, f: nat, k: nat, s: seq<Limb>, i: nat, q: int) {
    && i <= |p| == |s|
    && (forall m :: i + k < m < |s| ==> s[m] == 0)
    && (i + k < |s| ==> s[i + k] < f)
    && At(f * ValTo(p, i), k) == Val(s) + At(q, |s|)
  }

  lemma ShiftingStart(p: seq<Limb>, f: nat, k: nat, s: seq<Limb>)
    requires |p| == |s| && f > 0 && forall m :: 0 <= m < |s| ==> s[m] == 0
    ensures Shifting(p, f, k, s, 0, 0)
  {
    ValZeros(s, 0, |s|);
    assert f * ValTo(p, 0) == 0;
  }

  /** The number v placed at limb m, which may lie beyond the array. */
  function Placed(s: seq<Limb>, m: nat, v: nat): seq<Limb>
    requires m < |s| ==> s[m] + v < B
  {
    if m < |s| then s[m := s[m] + v] else s
  }

  lemma PlacedAdds(s: seq<Limb>, m: nat, v: nat, q: int) returns (r: int)
    requires m < |s| ==> s[m] + v < B
    ensures Val(s) + At(q, |s|) + At(v, m) == Val(Placed(s, m, v)) + At(r, |s|)
  {
    if m < |s| {
      ValUpdate(s, m, s[m] + v);
      r := q;
    } else {
      r := q + At(v, m - |s|);
      AtAt(v, m - |s|, |s|);
      AtAdd(q, At(v, m - |s|), |s|);
    }
  }

  /** One limb x of p more: its low part joins limb i + k, its high part starts the next. */
  lemma ShiftingNext(p: seq<Limb>, f: nat, k: nat, s: seq<Limb>, i: nat, q: int, hi: Limb, lo: nat, t: seq<Limb>,
                     u: seq<Limb>)
    returns (r: int)
    requires i < |s| && Shifting(p, f, k, s, i, q)
    requires hi < f && lo + f <= B && p[i] * f == hi * B + lo
    requires t == (if i + k + 1 < |s| then s[i + k + 1 := hi] else s)
    requires u == Placed(t, i + k, lo)
    ensures Shifting(p, f, k, u, i + 1, r)
  {
    assert t == Placed(s, i + k + 1, hi);
    var a := PlacedAdds(s, i + k + 1, hi, q);
    r := PlacedAdds(t, i + k, lo, a);
    ShiftTerm(p, f, i, k, hi, lo);
  }

  lemma ShiftTerm(p: seq<Limb>, f: nat, i: nat, k: nat, hi: nat, lo: nat)
    requires i < |p| && p[i] * f == hi * B + lo
    ensures At(f * ValTo(p, i + 1), k) == At(f * ValTo(p, i), k) + At(hi, i + k + 1) + At(lo, i + k)
  {
    var v := At(p[i], i);
    assert f * ValTo(p, i + 1) == f * ValTo(p, i) + f * v;
    AtAdd(f * ValTo(p, i), f * v, k);
    AtScale(f, p[i], i);
    AtAt(f * p[i], i, k);
    AtAdd(B * hi, lo, i + k);
    AtUp(hi, i + k);
  }

  lemma Mul3(f: int, x: int, w: int)
    ensures f * x * w == x * (w * f)
  {
  }

  /** A factor and a limb offset make a power of two. */
  lemma OffsetIsPow(x: int, k: nat, e: nat)
    ensures At(Pow(2, e) * x, k) == x * Pow(2, 32 * k + e)
  {
    var f, w, g := Pow(2, e), Base(k), Pow(2, 32 * k + e);
    AtTimes(f * x, k);
    assert g == w * f by {
      BaseIsPow(k);
      PowAdd(2, 32 * k, e);
    }
    Mul3(f, x, w);
  }

  /** The parts of a limb shifted left by e. */
  function HighPart(x: Limb, e: nat): Limb
    requires e <= 32
  {
    x / Pow(2, 32 - e)
  }

  function LowPart(x: Limb, e: nat): Limb { x * Pow(2, e) % B }

  /** A limb's two parts after a left shift by e, and how they join what is there. */
  lemma LeftParts(x: Limb, e: nat, below: Limb)
    requires e < 32 && below < Pow(2, e)
    ensures HighPart(x, e) < Pow(2, e) && LowPart(x, e) + Pow(2, e) <= B
    ensures x * Pow(2, e) == HighPart(x, e) * B + LowPart(x, e)
    ensures Or(below, LowPart(x, e)) == below + LowPart(x, e)
    ensures e == 0 ==> HighPart(x, e) == 0
  {
    ShiftHalves(x, e);
    OrIsSum(x * Pow(2, e) % B, below, e);
  }

  /** Spreads the limb x, shifted left by e, over the limbs m and m + 1 that exist. */
  method PutLeft(pn: array<Limb>, x: Limb, e: nat, m: nat)
    requires e < 32 && (m < pn.Length ==> pn[m] < Pow(2, e)) && (m + 1 < pn.Length ==> pn[m + 1] == 0)
    modifies pn
    ensures HighPart(x, e) < Pow(2, e) && LowPart(x, e) + Pow(2, e) <= B
    ensures x * Pow(2, e) == HighPart(x, e) * B + LowPart(x, e)
    ensures var s := old(pn[..]);
      var t := if m + 1 < |s| then s[m + 1 := HighPart(x, e)] else s;
      pn[..] == Placed(t, m, LowPart(x, e))
  {
    LeftParts(x, e, if m < pn.Length then pn[m] else 0);
    if m + 1 < pn.Length && e != 0 {
      OrZero(HighPart(x, e));
      pn[m + 1] := Or(pn[m + 1], HighPart(x, e));
    }
    if m < pn.Length {
      pn[m] := Or(pn[m], LowPart(x, e));
    }
  }

  /** pn <<= shift. */
  method ShiftLeft(pn: array<Limb>, shift: nat)
    modifies pn
    ensures Num(pn) == Wrap(old(Num(pn)) * Pow(2, shift), pn.Length)
  {
    ghost var p := pn[..];
    MulMonotone(0, Num(pn), Pow(2, shift));
    ghost var total: nat := Num(pn) * Pow(2, shift);
    var a := Copy(pn);
    Clear(pn);
    var k, e := shift / 32, shift % 32;
    ghost var f := Pow(2, e);
    ShiftingStart(p, f, k, pn[..]);
    var i := 0;
    ghost var q := 0;
    while i < pn.Length
      invariant 0 <= i <= pn.Length && a[..] == p && Shifting(p, f, k, pn[..], i, q)
    {
      ghost var s := pn[..];
      var x := a[i];
      PutLeft(pn, x, e, i + k);
      ghost var t := if i + k + 1 < |s| then s[i + k + 1 := HighPart(x, e)] else s;
      q := ShiftingNext(p, f, k, s, i, q, HighPart(x, e), LowPart(x, e), t, pn[..]);
      i := i + 1;
    }
    assert 32 * k + e == shift;
    ShiftingDone(p, e, k, pn[..], q, total);
  }

  lemma ShiftingDone(p: seq<Limb>, e: nat, k: nat, s: seq<Limb>, q: int, total: nat)
    requires Shifting(p, Pow(2, e), k, s, |s|, q) && total == Val(p) * Pow(2, 32 * k + e)
    ensures Val(s) == Wrap(total, |s|)
  {
    OffsetIsPow(Val(p), k, e);
    ValIsMod(s, total, q);
  }

  // ---- right shift

  /** The lowest i limbs of p, shifted right by k limbs and a factor f, with what has dropped out. */
  ghost predicate Dropping(p: seq<Limb>, f: nat, g: nat, k: nat, s: seq<Limb>, i: nat, rem: int) {
    && i <= |p| == |s|
    && (forall m :: 0 <= m < |s| && i <= m + k ==> s[m] == 0)
    && (i > k ==> s[i - k - 1] < g)
    && (if i <= k then rem == ValTo(p, i) else 0 <= rem < At(f, k))
    && At(f * Val(s), k) + rem == ValTo(p, i)
  }

  /** A value v added at limb m counts f times At(v, m + k) after shifting back. */
  lemma ShiftBack(s: seq<Limb>, f: nat, k: nat, m: nat, v: nat, t: seq<Limb>)
    requires m < |s| && s[m] + v < B && t == s[m := s[m] + v]
    ensures At(f * Val(t), k) == At(f * Val(s), k) + At(f * v, m + k)
  {
    ValUpdate(s, m, s[m] + v);
    var w := At(v, m);
    assert Val(t) == Val(s) + w;
    assert f * Val(t) == f * Val(s) + f * w;
    AtAdd(f * Val(s), f * w, k);
    AtScale(f, v, m);
    AtAt(f * v, m, k);
  }

  /** Before the first limb that stays. */
  lemma DroppingAll(p: seq<Limb>, f: nat, g: nat, k: nat, s: seq<Limb>, i: nat, rem: int)
    requires i < k && i < |s| && Dropping(p, f, g, k, s, i, rem)
    ensures Dropping(p, f, g, k, s, i + 1, ValTo(p, i + 1))
  {
  }

  /** The first limb that stays: its low part drops out. */
  lemma DroppingFirst(p: seq<Limb>, f: nat, g: nat, k: nat, s: seq<Limb>, rem: int, hi: Limb, lo: nat, t: seq<Limb>)
    requires k < |s| && Dropping(p, f, g, k, s, k, rem) && hi < g && lo < f && p[k] == f * hi + lo
    requires t == s[0 := hi]
    ensures Dropping(p, f, g, k, t, k + 1, rem + At(lo, k))
  {
    assert t == s[0 := s[0] + hi];
    ShiftBack(s, f, k, 0, hi, t);
    AtAdd(f * hi, lo, k);
    ValBound(p, k);
    AtMonotone(lo + 1, f, k);
    AtAdd(lo, 1, k);
  }

  /** A later limb: its low part joins the limb below. */
  lemma LowBits(f: nat, g: nat, lo: nat)
    requires f * g == B
    ensures f * (lo * g) == B * lo
  {
    Mul3(lo, f, g);
  }

  lemma DroppingNext(p: seq<Limb>, f: nat, g: nat, k: nat, s: seq<Limb>, i: nat, rem: int, hi: Limb, lo: nat,
                     t: seq<Limb>, u: seq<Limb>)
    requires k < i < |s| && Dropping(p, f, g, k, s, i, rem) && hi < g && p[i] == f * hi + lo
    requires f * g == B && lo * g + g <= B && t == s[i - k - 1 := s[i - k - 1] + lo * g]
    requires u == t[i - k := hi]
    ensures Dropping(p, f, g, k, u, i + 1, rem)
  {
    ShiftBack(s, f, k, i - k - 1, lo * g, t);
    assert u == t[i - k := t[i - k] + hi];
    ShiftBack(t, f, k, i - k, hi, u);
    LowBits(f, g, lo);
    AtUp(lo, i - 1);
    AtAdd(f * hi, lo, i);
  }

  /** The parts of a limb shifted right by e: what stays, what leaves, and where that goes. */
  function Kept(x: Limb, f: nat): Limb
    requires f > 0
  {
    x / f
  }
  function Lost(x: Limb, f: nat): Limb
    requires f > 0
  {
    x % f
  }
  function Raised(x: Limb, g: nat): Limb { x * g % B }

  lemma FactorsOfLimb(e: nat)
    requires e <= 32
    ensures Pow(2, e) * Pow(2, 32 - e) == B
  {
    PowAdd(2, e, 32 - e);
    PowersOfTwo();
  }

  lemma RightSplit(x: Limb, f: nat, g: nat)
    requires f > 0 && g > 0 && f * g == B
    ensures Kept(x, f) < g && Lost(x, f) < f && x == f * Kept(x, f) + Lost(x, f)
    ensures Raised(x, g) == Lost(x, f) * g && Raised(x, g) + g <= B && Raised(x, g) % g == 0
  {
    SplitProduct(x, g, f, B);
  }

  /** Spreads the limb x, shifted right by e, over the limbs i - k - 1 and i - k that exist. */
  method PutRight(pn: array<Limb>, x: Limb, e: nat, i: nat, k: nat)
    requires e < 32 && i < pn.Length && (k <= i ==> pn[i - k] == 0) && (k < i ==> pn[i - k - 1] < Pow(2, 32 - e))
    modifies pn
    ensures k < i ==> old(pn[i - k - 1]) + Lost(x, Pow(2, e)) * Pow(2, 32 - e) < B
    ensures pn[..] == Spread(old(pn[..]), x, Pow(2, e), Pow(2, 32 - e), i, k)
  {
    var f, g := Pow(2, e), Pow(2, 32 - e);
    RaisedJoins(x, e, f, g, if k < i then pn[i - k - 1] else 0);
    if i - k - 1 >= 0 && e != 0 {
      pn[i - k - 1] := Or(pn[i - k - 1], Raised(x, g));
    }
    if i - k >= 0 {
      OrZero(Kept(x, f));
      pn[i - k] := Or(pn[i - k], Kept(x, f));
    }
  }

  lemma RaisedJoins(x: Limb, e: nat, f: nat, g: nat, above: Limb)
    requires e < 32 && f == Pow(2, e) && g == Pow(2, 32 - e) && above < g
    ensures above + Lost(x, f) * g < B && Or(above, Raised(x, g)) == above + Lost(x, f) * g
    ensures e == 0 ==> Lost(x, f) * g == 0
  {
    FactorsOfLimb(e);
    RightSplit(x, f, g);
    OrIsSum(Raised(x, g), above, 32 - e);
    if e == 0 {
      NothingLost(x, f, g);
    }
  }

  lemma NothingLost(x: Limb, f: nat, g: nat)
    requires f == 1
    ensures Lost(x, f) * g == 0
  {
  }

  function Spread(s: seq<Limb>, x: Limb, f: nat, g: nat, i: nat, k: nat): seq<Limb>
    requires f > 0 && i < |s| && (k < i ==> s[i - k - 1] + Lost(x, f) * g < B)
  {
    if i < k then s
    else if i == k then s[0 := Kept(x, f)]
    else s[i - k - 1 := s[i - k - 1] + Lost(x, f) * g][i - k := Kept(x, f)]
  }

  /** pn >>= shift. */
  method ShiftRight(pn: array<Limb>, shift: nat)
    modifies pn
    ensures Num(pn) == old(Num(pn)) / Pow(2, shift)
  {
    ghost var p := pn[..];
    var a := Copy(pn);
    Clear(pn);
    var k, e := shift / 32, shift % 32;
    ghost var f, g := Pow(2, e), Pow(2, 32 - e);
    var i := 0;
    ghost var rem := 0;
    while i < pn.Length
      invariant 0 <= i <= pn.Length && a[..] == p && Dropping(p, f, g, k, pn[..], i, rem)
    {
      ghost var s := pn[..];
      var x := a[i];
      PutRight(pn, x, e, i, k);
      rem := DroppingStep(p, e, f, g, k, s, i, rem, x, pn[..]);
      i := i + 1;
    }
    DroppingDone(p, e, k, pn[..], rem);
  }

  lemma DroppingStep(p: seq<Limb>, e: nat, f: nat, g: nat, k: nat, s: seq<Limb>, i: nat, rem: int, x: Limb,
                     u: seq<Limb>) returns (r: int)
    requires e < 32 && f == Pow(2, e) && g == Pow(2, 32 - e)
    requires i < |s| && Dropping(p, f, g, k, s, i, rem) && x == p[i]
    requires k < i ==> s[i - k - 1] + Lost(x, f) * g < B
    requires u == Spread(s, x, f, g, i, k)
    ensures Dropping(p, f, g, k, u, i + 1, r)
  {
    FactorsOfLimb(e);
    RightSplit(x, f, g);
    if i < k {
      DroppingAll(p, f, g, k, s, i, rem);
      r := ValTo(p, i + 1);
    } else if i == k {
      DroppingFirst(p, f, g, k, s, rem, Kept(x, f), Lost(x, f), u);
      r := rem + At(Lost(x, f), k);
    } else {
      var t := s[i - k - 1 := s[i - k - 1] + Lost(x, f) * g];
      DroppingNext(p, f, g, k, s, i, rem, Kept(x, f), Lost(x, f), t, u);
      r := rem;
    }
  }

  lemma DroppingDone(p: seq<Limb>, e: nat, k: nat, s: seq<Limb>, rem: int)
    requires e < 32 && Dropping(p, Pow(2, e), Pow(2, 32 - e), k, s, |s|, rem)
    ensures Val(s) == Val(p) / Pow(2, 32 * k + e)
  {
    var d := Pow(2, 32 * k + e);
    OffsetIsPow(Val(s), k, e);
    OffsetIsPow(1, k, e);
    if |s| <= k {
      ValZeros(s, 0, |s|);
      ValBound(p, |s|);
      BaseMonotone(|s|, k);
      AtMonotone(1, Pow(2, e), k);
    }
    DivUnique(Val(p), d, Val(s), rem);
  }
}
