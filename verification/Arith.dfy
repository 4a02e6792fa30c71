/**
 Arithmetic in place on fixed arrays of 32-bit limbs, as base_uint does it. Every
 operation is stated on the numbers the arrays stand for, modulo the array's span.
 */
module Arith {
  import opened Powers
  import opened Limbs

  /** The number in an array. */
  ghost function Num(pn: array<Limb>): nat
    reads pn
  {
    Val(pn[..])
  }

  /** s and t agree from limb i on. */
  ghost predicate SameFrom(s: seq<Limb>, t: seq<Limb>, i: nat) {
    |s| == |t| && forall j :: i <= j < |s| ==> s[j] == t[j]
  }

  /** One step of a carry: a column's sum is its new limb and what it passes on. */
  lemma Column(carry: nat, add: nat, n: nat, i: nat)
    requires n == carry + add
    ensures At(carry, i) + At(add, i) == At(Low(n), i) + At(High(n), i + 1)
  {
    AtAdd(carry, add, i);
    AtUp(High(n), i);
    AtAdd(Low(n), B * High(n), i);
    assert n == Low(n) + B * High(n);
  }

  // ---- addition and subtraction

  /** The first i columns of p + b are added up in s; the rest of s is still p. */
  ghost predicate Adding(p: seq<Limb>, b: seq<Limb>, s: seq<Limb>, i: nat, carry: int) {
    && i <= |s| == |p| == |b| && 0 <= carry <= 1
    && SameFrom(s, p, i)
    && ValTo(s, i) + At(carry, i) == ValTo(p, i) + ValTo(b, i)
  }

  lemma AddingNext(p: seq<Limb>, b: seq<Limb>, s: seq<Limb>, i: nat, carry: int, n: nat, t: seq<Limb>)
    requires i < |s| && Adding(p, b, s, i, carry) && n == carry + p[i] + b[i] && t == s[i := Low(n)]
    ensures Adding(p, b, t, i + 1, High(n))
  {
    var x: int, y: int := p[i], b[i];
    Column(carry, x + y, n, i);
    AtAdd(x, y, i);
    SameBelow(s, t, i);
  }

  lemma AddingDone(p: seq<Limb>, b: seq<Limb>, s: seq<Limb>, carry: int, total: nat)
    requires Adding(p, b, s, |s|, carry) && total == Val(p) + Val(b)
    ensures Val(s) == Wrap(total, |s|)
  {
    ValIsMod(s, total, carry);
  }

  /** pn += b, also when both are the same array. */
  method Add(pn: array<Limb>, b: array<Limb>)
    requires pn.Length == b.Length
    modifies pn
    ensures Num(pn) == Wrap(old(Num(pn)) + old(Num(b)), pn.Length)
  {
    ghost var p, q := pn[..], b[..];
    var carry, i := 0, 0;
    while i < pn.Length
      invariant 0 <= i <= pn.Length && Adding(p, q, pn[..], i, carry)
      invariant SameFrom(b[..], q, i)
    {
      ghost var s := pn[..];
      var n := carry + pn[i] + b[i];
      pn[i] := Low(n);
      AddingNext(p, q, s, i, carry, n, pn[..]);
      carry, i := High(n), i + 1;
    }
    AddingDone(p, q, pn[..], carry, Val(p) + Val(q));
  }

  /** The lowest i limbs were all ones and have wrapped to zero; limb i has just been incremented. */
  ghost predicate Carrying(p: seq<Limb>, s: seq<Limb>, i: nat) {
    && i < |s| == |p| && s[i] == Low(p[i] as int + 1) && SameFrom(s, p, i + 1)
    && ValTo(s, i) + Base(i) == ValTo(p, i) + 1
  }

  lemma CarryingNext(p: seq<Limb>, s: seq<Limb>, i: nat, t: seq<Limb>)
    requires Carrying(p, s, i) && s[i] == 0 && i + 1 < |s| && t == s[i + 1 := Low(s[i + 1] as int + 1)]
    ensures Carrying(p, t, i + 1)
  {
    AtUp(1, i);
    AtAdd(B - 1, 1, i);
    SameBelow(s, t, i + 1);
  }

  lemma CarryingDone(p: seq<Limb>, s: seq<Limb>, i: nat, total: nat)
    requires Carrying(p, s, i) && (s[i] != 0 || i == |s| - 1) && total == Val(p) + 1
    ensures Val(s) == Wrap(total, |s|)
  {
    Carried(p, s, i);
    ValIsMod(s, total, if s[i] == 0 then 1 else 0);
  }

  lemma LimbAfter(x: Limb, y: Limb, i: nat)
    requires y == Low(x as int + 1)
    ensures At(x, i) + Base(i) == At(y, i) + if y == 0 then Base(i + 1) else 0
  {
    AtAdd(x, 1, i);
    AtUp(1, i);
  }

  lemma Carried(p: seq<Limb>, s: seq<Limb>, i: nat)
    requires Carrying(p, s, i) && (s[i] != 0 || i == |s| - 1)
    ensures Val(p) + 1 == Val(s) + if s[i] == 0 then Base(|s|) else 0
  {
    SameAbove(p, s, i + 1, |s|);
    LimbAfter(p[i], s[i], i);
  }

  method Increment(pn: array<Limb>)
    requires pn.Length > 0
    modifies pn
    ensures Num(pn) == Wrap(old(Num(pn)) + 1, pn.Length)
  {
    ghost var p := pn[..];
    var i := 0;
    pn[0] := Low(pn[0] as int + 1);
    while pn[i] == 0 && i < pn.Length - 1
      invariant 0 <= i < pn.Length && Carrying(p, pn[..], i)
      decreases pn.Length - i
    {
      ghost var s := pn[..];
      i := i + 1;
      pn[i] := Low(pn[i] as int + 1);
      CarryingNext(p, s, i - 1, pn[..]);
    }
    CarryingDone(p, pn[..], i, Val(p) + 1);
  }

  /** The lowest i limbs were zero and have wrapped to all ones; limb i has just been decremented. */
  ghost predicate Borrowing(p: seq<Limb>, s: seq<Limb>, i: nat) {
    && i < |s| == |p| && s[i] == Low(B - 1 + p[i]) && SameFrom(s, p, i + 1)
    && ValTo(s, i) + 1 == ValTo(p, i) + Base(i)
  }

  lemma BorrowingNext(p: seq<Limb>, s: seq<Limb>, i: nat, t: seq<Limb>)
    requires Borrowing(p, s, i) && s[i] == B - 1 && i + 1 < |s| && t == s[i + 1 := Low(B - 1 + s[i + 1])]
    ensures Borrowing(p, t, i + 1)
  {
    AtUp(1, i);
    AtAdd(B - 1, 1, i);
    SameBelow(s, t, i + 1);
  }

  lemma BorrowingDone(p: seq<Limb>, s: seq<Limb>, i: nat, total: nat)
    requires Borrowing(p, s, i) && (s[i] != B - 1 || i == |s| - 1) && total == Val(p) + Base(|s|) - 1
    ensures Val(s) == Wrap(total, |s|)
  {
    Borrowed(p, s, i);
    ValIsMod(s, total, if s[i] == B - 1 then 0 else 1);
  }

  lemma LimbBefore(x: Limb, y: Limb, i: nat)
    requires y == Low(B - 1 + x)
    ensures At(x, i) + (if y == B - 1 then Base(i + 1) else 0) == At(y, i) + Base(i)
  {
    AtAdd(y, 1, i);
    AtUp(1, i);
    assert x == if y == B - 1 then 0 else 1 + y as int;
  }

  lemma Borrowed(p: seq<Limb>, s: seq<Limb>, i: nat)
    requires Borrowing(p, s, i) && (s[i] != B - 1 || i == |s| - 1)
    ensures Val(p) - 1 == Val(s) - if s[i] == B - 1 then Base(|s|) else 0
  {
    SameAbove(p, s, i + 1, |s|);
    LimbBefore(p[i], s[i], i);
  }

  method Decrement(pn: array<Limb>)
    requires pn.Length > 0
    modifies pn
    ensures Num(pn) == Wrap(old(Num(pn)) + Base(pn.Length) - 1, pn.Length)
  {
    ghost var p := pn[..];
    var i := 0;
    pn[0] := Low(B - 1 + pn[0]);
    while pn[i] == B - 1 && i < pn.Length - 1
      invariant 0 <= i < pn.Length && Borrowing(p, pn[..], i)
      decreases pn.Length - i
    {
      ghost var s := pn[..];
      i := i + 1;
      pn[i] := Low(B - 1 + pn[i]);
      BorrowingNext(p, s, i - 1, pn[..]);
    }
    BorrowingDone(p, pn[..], i, Val(p) + Base(|p|) - 1);
  }

  /** Complementing every limb subtracts from the array's largest number. */
  lemma {:induction false} ValComplement(p: seq<Limb>, s: seq<Limb>, k: nat)
    requires k <= |s| == |p| && forall i :: 0 <= i < k ==> s[i] == B - 1 - p[i]
    ensures ValTo(s, k) == Base(k) - 1 - ValTo(p, k)
  {
    if k > 0 {
      ValComplement(p, s, k - 1);
      AtAdd(s[k - 1], p[k - 1], k - 1);
      AtAdd(B - 1, 1, k - 1);
      AtUp(1, k - 1);
    }
  }

  method Negate(b: array<Limb>) returns (r: array<Limb>)
    requires b.Length > 0
    ensures fresh(r) && r.Length == b.Length && Num(b) < Base(b.Length)
    ensures Num(r) == Wrap(Base(b.Length) - Num(b), b.Length)
  {
    ValBound(b[..], b.Length);
    r := new Limb[b.Length](_ => 0);
    for i := 0 to b.Length
      invariant forall j :: 0 <= j < i ==> r[j] == B - 1 - b[j]
    {
      r[i] := B - 1 - b[i];
    }
    ValComplement(b[..], r[..], b.Length);
    Increment(r);
  }

  lemma SubtractByAdding(a: nat, b: nat, r: nat, w: nat)
    requires b < Base(w) && r == Wrap(a + Wrap(Base(w) - b, w), w)
    ensures r == Wrap(a + Base(w) - b, w)
  {
    var m := Base(w);
    if b == 0 {
      DivUnique(m, m, 1, 0);
      assert Wrap(m - b, w) == 0;
      var q, t := a / m, a % m;
      assert a == q * m + t;
      assert (q + 1) * m == q * m + m;
      DivUnique(a + m, m, q + 1, t);
    } else {
      DivUnique(m - b, m, 0, m - b);
    }
  }

  /** pn -= b, also when both are the same array. */
  method Subtract(pn: array<Limb>, b: array<Limb>)
    requires pn.Length == b.Length > 0
    modifies pn
    ensures old(Num(b)) < Base(pn.Length)
    ensures Num(pn) == Wrap(old(Num(pn)) + Base(pn.Length) - old(Num(b)), pn.Length)
  {
    ghost var p, q := Num(pn), Num(b);
    var m := Negate(b);
    ghost var n := Num(m);
    Add(pn, m);
    SubtractByAdding(p, q, Num(pn), pn.Length);
  }

  // ---- multiplication

  /** The accumulator of a product column stays below 2^64. */
  lemma ColumnFits(carry: int, x: int, a: int, b: int)
    requires 0 <= carry <= 0xffff_ffff && 0 <= x <= 0xffff_ffff && 0 <= a <= 0xffff_ffff && 0 <= b <= 0xffff_ffff
    ensures 0 <= a * b && carry + x + a * b <= 0xffff_ffff_ffff_ffff
  {
    MulMonotone(a, 0xffff_ffff, b);
  }

  ghost predicate Scaling(p: seq<Limb>, b: Limb, s: seq<Limb>, i: nat, carry: int) {
    && i <= |s| == |p| && 0 <= carry < B && SameFrom(s, p, i)
    && ValTo(s, i) + At(carry, i) == b * ValTo(p, i)
  }

  lemma ScalingNext(p: seq<Limb>, b: Limb, s: seq<Limb>, i: nat, carry: int, n: nat, t: seq<Limb>)
    requires i < |s| && Scaling(p, b, s, i, carry) && n == carry + b * p[i] && t == s[i := Low(n)]
    ensures Scaling(p, b, t, i + 1, High(n))
  {
    ColumnFits(carry, 0, b, p[i]);
    Column(carry, b * p[i], n, i);
    RowTerm(b, p, i, 0);
    SameBelow(s, t, i);
  }

  /** pn *= b for a single limb b. */
  method MultiplyLimb(pn: array<Limb>, b: Limb)
    modifies pn
    ensures b * old(Num(pn)) >= 0 && Num(pn) == Wrap(b * old(Num(pn)), pn.Length)
  {
    ghost var p := pn[..];
    var carry, i := 0, 0;
    while i < pn.Length
      invariant 0 <= i <= pn.Length && Scaling(p, b, pn[..], i, carry)
    {
      ghost var s := pn[..];
      ColumnFits(carry, 0, b, pn[i]);
      var n := carry + b * pn[i];
      assert n < 0x1_0000_0000_0000_0000;
      pn[i] := Low(n);
      ScalingNext(p, b, s, i, carry, n, pn[..]);
      carry, i := High(n), i + 1;
    }
    ValIsMod(pn[..], b * Val(p), carry);
  }

  /** s is t with x times the lowest i limbs of b added from limb j on, but for the carry. */
  ghost predicate Row(t: seq<Limb>, x: Limb, b: seq<Limb>, s: seq<Limb>, j: nat, i: nat, carry: int) {
    && i + j <= |s| == |t| == |b| && 0 <= carry < B
    && Val(s) + At(carry, i + j) == Val(t) + At(x * ValTo(b, i), j)
  }

  lemma RowNext(t: seq<Limb>, x: Limb, b: seq<Limb>, s: seq<Limb>, j: nat, i: nat, carry: int, n: nat, u: seq<Limb>)
    requires i + j < |s| && Row(t, x, b, s, j, i, carry)
    requires n == carry + s[i + j] + x * b[i] && u == s[i + j := Low(n)]
    ensures Row(t, x, b, u, j, i + 1, High(n))
  {
    var m, y: int := i + j, s[i + j];
    ColumnFits(carry, s[m], x, b[i]);
    ValUpdate(s, m, Low(n));
    Column(carry, y + x * b[i], n, m);
    AtAdd(y, x * b[i], m);
    AtAdd(Low(n) - y, y, m);
    RowTerm(x, b, i, j);
  }

  lemma RowTerm(x: Limb, b: seq<Limb>, i: nat, j: nat)
    requires i < |b|
    ensures At(x * ValTo(b, i + 1), j) == At(x * ValTo(b, i), j) + At(x * b[i], i + j)
  {
    var v := At(b[i], i);
    assert x * ValTo(b, i + 1) == x * ValTo(b, i) + x * v;
    AtAdd(x * ValTo(b, i), x * v, j);
    AtScale(x, b[i], i);
    AtAt(x * b[i], i, j);
  }

  /** What lies above limb k is a multiple of its weight. */
  lemma {:induction false} Above(s: seq<Limb>, k: nat, m: nat) returns (q: nat)
    requires k <= m <= |s|
    ensures ValTo(s, m) == ValTo(s, k) + At(q, k)
  {
    q := 0;
    if k < m {
      var r := Above(s, k, m - 1);
      AtAt(s[m - 1], m - 1 - k, k);
      AtAdd(r, At(s[m - 1], m - 1 - k), k);
      q := r + At(s[m - 1], m - 1 - k);
    }
  }

  /** The rows of the first j limbs of a are added up in s, modulo its span. */
  ghost predicate Rows(a: seq<Limb>, b: seq<Limb>, s: seq<Limb>, j: nat, q: int) {
    && j <= |s| == |a| == |b|
    && ValTo(a, j) * Val(b) == Val(s) + At(q, |s|)
  }

  lemma RowDone(a: seq<Limb>, b: seq<Limb>, t: seq<Limb>, s: seq<Limb>, j: nat, carry: int, q: int) returns (r: int)
    requires j < |s| == |t| && Rows(a, b, t, j, q) && Row(t, a[j], b, s, j, |s| - j, carry)
    ensures Rows(a, b, s, j + 1, r)
  {
    var x, w := a[j], |s|;
    var h := Above(b, w - j, w);
    RowSplit(x, b, j, h);
    r := q + carry + x * h;
    AtAdd(q, carry, w);
    AtAdd(q + carry, x * h, w);
    AtScale(Val(b), x, j);
    assert (ValTo(a, j) + At(x, j)) * Val(b) == ValTo(a, j) * Val(b) + Val(b) * At(x, j);
    assert Val(b) * x == x * Val(b);
  }

  lemma RowSplit(x: Limb, b: seq<Limb>, j: nat, h: nat)
    requires j <= |b| && Val(b) == ValTo(b, |b| - j) + At(h, |b| - j)
    ensures At(x * Val(b), j) == At(x * ValTo(b, |b| - j), j) + At(x * h, |b|)
  {
    var k := |b| - j;
    assert x * Val(b) == x * ValTo(b, k) + x * At(h, k);
    AtAdd(x * ValTo(b, k), x * At(h, k), j);
    AtScale(x, h, k);
    AtAt(x * h, k, j);
  }

  lemma RowsDone(a: seq<Limb>, b: seq<Limb>, s: seq<Limb>, q: int, total: nat)
    requires Rows(a, b, s, |s|, q) && total == Val(a) * Val(b)
    ensures Val(s) == Wrap(total, |s|)
  {
    ValIsMod(s, total, q);
  }

  method Clear(pn: array<Limb>)
    modifies pn
    ensures forall i :: 0 <= i < pn.Length ==> pn[i] == 0
    ensures Num(pn) == 0
  {
    for i := 0 to pn.Length
      invariant forall j :: 0 <= j < i ==> pn[j] == 0
    {
      pn[i] := 0;
    }
    ValZeros(pn[..], 0, pn.Length);
  }

  method Copy(b: array<Limb>) returns (a: array<Limb>)
    ensures fresh(a) && a[..] == b[..]
  {
    a := new Limb[b.Length](_ => 0);
    for i := 0 to b.Length
      invariant forall j :: 0 <= j < i ==> a[j] == b[j]
    {
      a[i] := b[i];
    }
  }

  ghost predicate AllZero(pn: array<Limb>)
    reads pn
  {
    forall i :: 0 <= i < pn.Length ==> pn[i] == 0
  }

  /** Adds x times b into pn from limb j on. */
  method AddRow(pn: array<Limb>, x: Limb, b: array<Limb>, j: nat) returns (ghost carry: int)
    requires pn.Length == b.Length && j < pn.Length && (b == pn ==> AllZero(pn))
    modifies pn
    ensures b != pn ==> Row(old(pn[..]), x, b[..], pn[..], j, pn.Length - j, carry)
    ensures b == pn ==> AllZero(pn)
  {
    ghost var t, q := pn[..], b[..];
    var c, i := 0, 0;
    while i + j < pn.Length
      invariant 0 <= i <= pn.Length - j
      invariant b != pn ==> Row(t, x, q, pn[..], j, i, c)
      invariant b == pn ==> AllZero(pn) && c == 0
    {
      ghost var s := pn[..];
      ColumnFits(c, pn[i + j], x, b[i]);
      var n := c + pn[i + j] + x * b[i];
      assert n < 0x1_0000_0000_0000_0000;
      pn[i + j] := Low(n);
      if b != pn {
        RowNext(t, x, q, s, j, i, c, n, pn[..]);
      }
      c, i := High(n), i + 1;
    }
    carry := c;
  }

  /**
   pn *= b. The source clears pn before it reads b, so that pn *= pn leaves zero; its
   operator * multiplies a copy and so never meets that case.
   */
  method Multiply(pn: array<Limb>, b: array<Limb>)
    requires pn.Length == b.Length
    modifies pn
    ensures pn != b ==> Num(pn) == Wrap(old(Num(pn)) * old(Num(b)), pn.Length)
    ensures pn == b ==> Num(pn) == 0
  {
    ghost var p, t := pn[..], b[..];
    MulMonotone(0, Num(pn), Num(b));
    ghost var total: nat := Num(pn) * Num(b);
    var a := Copy(pn);
    Clear(pn);
    var j := 0;
    ghost var q := 0;
    while j < pn.Length
      invariant 0 <= j <= pn.Length && a[..] == p
      invariant b != pn ==> b[..] == t && Rows(p, t, pn[..], j, q)
      invariant b == pn ==> AllZero(pn)
    {
      ghost var u := pn[..];
      ghost var carry := AddRow(pn, a[j], b, j);
      if b != pn {
        q := RowDone(p, t, u, pn[..], j, carry, q);
      }
      j := j + 1;
    }
    if b != pn {
      RowsDone(p, t, pn[..], q, total);
    } else {
      ValZeros(pn[..], 0, pn.Length);
    }
  }

  // ---- comparison

  /** -1, 0 or 1 as pn is below, equal to or above b. */
  method CompareTo(pn: array<Limb>, b: array<Limb>) returns (c: int)
    requires pn.Length == b.Length
    ensures c == if Num(pn) < Num(b) then -1 else if Num(pn) > Num(b) then 1 else 0
    ensures c == 0 <==> pn[..] == b[..]
  {
    var i := pn.Length;
    while i > 0
      invariant 0 <= i <= pn.Length && SameFrom(pn[..], b[..], i)
    {
      i := i - 1;
      if pn[i] < b[i] {
        HighestDecides(pn[..], b[..], i);
        return -1;
      }
      if pn[i] > b[i] {
        HighestDecides(b[..], pn[..], i);
        return 1;
      }
    }
    assert pn[..] == b[..];
    return 0;
  }

  /** Is pn the 64-bit number b? */
  method EqualTo(pn: array<Limb>, b: nat) returns (same: bool)
    requires pn.Length >= 2 && b <= 0xffff_ffff_ffff_ffff
    ensures same <==> Num(pn) == b
  {
    Low64(pn[..]);
    var i := pn.Length - 1;
    while i >= 2
      invariant 1 <= i < pn.Length && forall j :: i < j < pn.Length ==> pn[j] == 0
    {
      if pn[i] != 0 {
        return false;
      }
      i := i - 1;
    }
    ValZeros(pn[..], 2, pn.Length);
    return pn[1] == High(b) && pn[0] == Low(b);
  }

  /** The two lowest limbs hold the number exactly when the others are zero. */
  lemma Low64(s: seq<Limb>)
    requires |s| >= 2
    ensures ValTo(s, 2) == s[0] + B * s[1]
    ensures Val(s) < B * B ==> forall j :: 2 <= j < |s| ==> s[j] == 0
  {
    AtLow(s[0]);
    AtLow(s[1]);
    AtLow(1);
    assert ValTo(s, 1) == s[0];
    if Val(s) < B * B {
      forall j | 2 <= j < |s|
        ensures s[j] == 0
      {
        BaseMonotone(2, j);
        var h := Above(s, j + 1, |s|);
        if s[j] > 0 {
          AtMonotone(1, s[j], j);
        }
      }
    }
  }

  lemma {:induction false} BaseMonotone(i: nat, k: nat)
    requires i <= k
    ensures Base(i) <= Base(k)
  {
    if i < k {
      BaseMonotone(i, k - 1);
    }
  }
}
