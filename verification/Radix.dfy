/**
 Numbers as digits in any base: big-endian sequences without leading zeros, and the
 little-endian buffers that a multiply-and-add with carries works on.
 */
module Radix {
  import opened Powers

  ghost predicate DigitsBelow(d: seq<nat>, b: nat) { forall i :: 0 <= i < |d| ==> d[i] < b }

  // ---- big-endian digits

  /** The number that the first i digits of v make in base b. */
  function Number(b: nat, v: seq<nat>, i: nat): nat
    requires i <= |v|
  {
    if i == 0 then 0 else Number(b, v, i - 1) * b + v[i - 1]
  }

  /** The digits of n in base b; none for zero. */
  function Digits(b: nat, n: nat): (d: seq<nat>)
    requires b > 1
    ensures DigitsBelow(d, b) && (n == 0 <==> d == []) && (d != [] ==> d[0] != 0)
  {
    if n == 0 then [] else
    SmallerQuotient(n, b);
    Digits(b, n / b) + [n % b]
  }

  lemma SmallerQuotient(n: nat, b: nat)
    requires n > 0 && b > 1
    ensures 0 <= n / b < n && (n / b == 0 ==> n % b != 0)
  {
    assert n == n / b * b + n % b;
    MulMonotone(2, b, n / b);
  }

  /** One digit more. */
  lemma DigitsNext(b: nat, q: nat, x: nat, n: nat)
    requires b > 1 && x < b && n == q * b + x && n > 0
    ensures Digits(b, n) == Digits(b, q) + [x]
  {
    DivUnique(n, b, q, x);
  }

  lemma {:induction false} NumberBound(b: nat, v: seq<nat>, i: nat)
    requires i <= |v| && b > 0 && DigitsBelow(v, b)
    ensures Number(b, v, i) < Pow(b, i)
  {
    if i > 0 {
      NumberBound(b, v, i - 1);
      var n, p := Number(b, v, i - 1), Pow(b, i - 1);
      MulMonotone(n + 1, p, b);
      assert (n + 1) * b == n * b + b;
    }
  }

  lemma {:induction false} NumberPrefix(b: nat, v: seq<nat>, w: seq<nat>, i: nat)
    requires i <= |v| && i <= |w| && forall j :: 0 <= j < i ==> v[j] == w[j]
    ensures Number(b, v, i) == Number(b, w, i)
  {
    if i > 0 {
      NumberPrefix(b, v, w, i - 1);
    }
  }

  /** Digits make their number. */
  lemma {:induction false} NumberOfDigits(b: nat, n: nat)
    requires b > 1
    ensures var d := Digits(b, n); Number(b, d, |d|) == n
    decreases n
  {
    if n > 0 {
      SmallerQuotient(n, b);
      var e, d := Digits(b, n / b), Digits(b, n);
      NumberOfDigits(b, n / b);
      NumberPrefix(b, d, e, |e|);
      assert n == n / b * b + n % b;
    }
  }

  /** A number's only digits without a leading zero. */
  lemma {:induction false} DigitsOfNumber(b: nat, v: seq<nat>, i: nat)
    requires b > 1 && DigitsBelow(v, b) && i <= |v| && (|v| > 0 ==> v[0] != 0)
    ensures Digits(b, Number(b, v, i)) == v[..i] && (i > 0 ==> Number(b, v, i) > 0)
  {
    if i > 0 {
      DigitsOfNumber(b, v, i - 1);
      var q := Number(b, v, i - 1);
      if i > 1 {
        MulMonotone(1, q, b);
      }
      DigitsNext(b, q, v[i - 1], Number(b, v, i));
      assert v[..i] == v[..i - 1] + [v[i - 1]];
    }
  }

  /** Leading zeros count for nothing. */
  lemma {:induction false} NumberAfterZeros(b: nat, v: seq<nat>, z: nat, w: seq<nat>, i: nat)
    requires z + i <= |v| && w == v[z..] && forall j :: 0 <= j < z ==> v[j] == 0
    ensures Number(b, v, z + i) == Number(b, w, i)
    decreases z + i
  {
    if i > 0 {
      NumberAfterZeros(b, v, z, w, i - 1);
    } else if z > 0 {
      NumberAfterZeros(b, v, z - 1, v[z - 1..], 0);
    }
  }

  // ---- changing the base, with leading zeros kept

  /** How many zeros v starts with. */
  function LeadingZeros(v: seq<nat>, i: nat): (z: nat)
    requires i <= |v|
    ensures i <= z <= |v| && (forall j :: i <= j < z ==> v[j] == 0) && (z < |v| ==> v[z] != 0)
    decreases |v| - i
  {
    if i < |v| && v[i] == 0 then LeadingZeros(v, i + 1) else i
  }

  function Repeat<T>(x: T, n: nat): seq<T> { seq(n, _ => x) }

  /** The leading zeros of v, then its number in another base. */
  function Recode(from: nat, to: nat, v: seq<nat>): seq<nat>
    requires to > 1
  {
    Repeat(0, LeadingZeros(v, 0)) + Digits(to, Number(from, v, |v|))
  }

  lemma LeadingZerosOf(z: nat, d: seq<nat>, i: nat)
    requires i <= z && (d != [] ==> d[0] != 0)
    ensures LeadingZeros(Repeat(0, z) + d, i) == z
  {
    var w := Repeat(0, z) + d;
    assert forall j :: 0 <= j < z ==> w[j] == 0;
    assert d != [] ==> w[z] == d[0];
  }

  /** Zeros before digits that start with none stay as they are. */
  lemma RecodeZeros(a: nat, b: nat, z: nat, d: seq<nat>)
    requires b > 1 && (d != [] ==> d[0] != 0)
    ensures Recode(a, b, Repeat(0, z) + d) == Repeat(0, z) + Digits(b, Number(a, d, |d|))
  {
    var all := Repeat(0, z) + d;
    LeadingZerosOf(z, d, 0);
    assert all[z..] == d;
    NumberAfterZeros(a, all, z, d, |d|);
  }

  /** Changing the base and back is the identity. */
  lemma RecodeBack(a: nat, b: nat, v: seq<nat>)
    requires a > 1 && b > 1 && DigitsBelow(v, a)
    ensures DigitsBelow(Recode(a, b, v), b) && Recode(b, a, Recode(a, b, v)) == v
  {
    var z, n := LeadingZeros(v, 0), Number(a, v, |v|);
    var d, body := Digits(b, n), v[z..];
    RecodeZeros(b, a, z, d);
    NumberOfDigits(b, n);
    NumberAfterZeros(a, v, z, body, |body|);
    DigitsOfNumber(a, body, |body|);
    assert body[..|body|] == body;
    assert v == Repeat(0, z) + body;
  }

  // ---- little-endian buffers

  /** The number in the lowest i digits of a buffer. */
  function Value(b: nat, d: seq<nat>, i: nat): nat
    requires i <= |d|
  {
    if i == 0 then 0 else Value(b, d, i - 1) + d[i - 1] * Pow(b, i - 1)
  }

  lemma {:induction false} ValueSame(b: nat, d: seq<nat>, e: seq<nat>, i: nat)
    requires i <= |d| && i <= |e| && forall j :: 0 <= j < i ==> d[j] == e[j]
    ensures Value(b, d, i) == Value(b, e, i)
  {
    if i > 0 {
      ValueSame(b, d, e, i - 1);
    }
  }

  lemma {:induction false} ValueZeros(b: nat, d: seq<nat>, i: nat, k: nat)
    requires i <= k <= |d| && forall j :: i <= j < k ==> d[j] == 0
    ensures Value(b, d, k) == Value(b, d, i)
  {
    if i < k {
      ValueZeros(b, d, i, k - 1);
    }
  }
}
