/** Converting digits from one base to another in a fixed buffer, as both directions of Base58 do. */
module RadixBuffer {
  import opened Powers
  import opened Radix

  /** The lowest i digits of d times m, plus c, have been worked out in s, but for the carry. */
  ghost predicate Multiplying(b: nat, m: nat, c: nat, d: seq<nat>, s: seq<nat>, i: nat, carry: nat) {
    && b > 1 && i <= |s| == |d| && DigitsBelow(s, b)
    && (forall j :: i <= j < |s| ==> s[j] == d[j])
    && Value(b, s, i) + carry * Pow(b, i) == Value(b, d, i) * m + c
  }

  lemma Column(b: nat, m: nat, carry: nat, x: nat, n: nat, w: nat)
    requires b > 0 && n == carry + m * x
    ensures carry * w + x * w * m == n % b * w + n / b * (b * w)
  {
    assert m * x * w == x * w * m;
    assert n * w == carry * w + m * x * w;
    assert n == n / b * b + n % b;
    MulAssociates(n / b, b, w);
    assert n * w == n / b * b * w + n % b * w;
  }

  lemma MultiplyingNext(b: nat, m: nat, c: nat, d: seq<nat>, s: seq<nat>, i: nat, carry: nat, n: nat, t: seq<nat>)
    requires i < |s| && Multiplying(b, m, c, d, s, i, carry)
    requires n == carry + m * s[i] && t == s[i := n % b]
    ensures Multiplying(b, m, c, d, t, i + 1, n / b)
  {
    var w := Pow(b, i);
    Column(b, m, carry, d[i], n, w);
    ValueSame(b, s, t, i);
    assert (Value(b, d, i) + d[i] * w) * m == Value(b, d, i) * m + d[i] * w * m;
  }

  /** Where the loop stops the product is complete: nothing is carried out of the buffer. */
  lemma MultiplyingDone(b: nat, m: nat, c: nat, d: seq<nat>, s: seq<nat>, i: nat, carry: nat, length: nat)
    requires Multiplying(b, m, c, d, s, i, carry) && (i == |s| || (carry == 0 && i >= length))
    requires forall j :: length <= j < |d| ==> d[j] == 0
    requires Value(b, d, |d|) * m + c < Pow(b, |s|)
    ensures carry == 0 && Value(b, s, |s|) == Value(b, d, |d|) * m + c
    ensures forall j :: i <= j < |s| ==> s[j] == 0
  {
    if i == |s| {
      MulMonotone(1, if carry > 0 then carry else 1, Pow(b, i));
    } else {
      ValueZeros(b, d, i, |d|);
      ValueZeros(b, s, i, |s|);
    }
  }

  /** Multiplies the number in the buffer by m and adds c. */
  method MultiplyAdd(d: array<nat>, b: nat, m: nat, c: nat, length: nat) returns (newLength: nat)
    requires b > 1 && length <= d.Length && DigitsBelow(d[..], b)
    requires forall j :: length <= j < d.Length ==> d[j] == 0
    requires Value(b, d[..], d.Length) * m + c < Pow(b, d.Length)
    modifies d
    ensures newLength <= d.Length && DigitsBelow(d[..], b)
    ensures forall j :: newLength <= j < d.Length ==> d[j] == 0
    ensures Value(b, d[..], d.Length) == old(Value(b, d[..], d.Length)) * m + c
  {
    ghost var s := d[..];
    var carry: nat, i: nat := c, 0;
    while (carry != 0 || i < length) && i < d.Length
      invariant i <= d.Length && Multiplying(b, m, c, s, d[..], i, carry)
      decreases d.Length - i
    {
      ghost var t := d[..];
      MulMonotone(0, m, d[i]);
      var n: nat := carry + m * d[i];
      d[i] := n % b;
      MultiplyingNext(b, m, c, s, t, i, carry, n, d[..]);
      carry, i := n / b, i + 1;
    }
    MultiplyingDone(b, m, c, s, d[..], i, carry, length);
    assert carry == 0;
    newLength := i;
  }

  /** The digits of v, given in base m, as digits in base b in a buffer of the given size. */
  method Convert(v: seq<nat>, m: nat, b: nat, size: nat) returns (d: array<nat>, length: nat)
    requires b > 1 && m > 0 && DigitsBelow(v, m) && Pow(m, |v|) <= Pow(b, size)
    ensures fresh(d) && d.Length == size && length <= size && DigitsBelow(d[..], b)
    ensures forall j :: length <= j < size ==> d[j] == 0
    ensures Value(b, d[..], size) == Number(m, v, |v|)
  {
    d := new nat[size](_ => 0);
    length := 0;
    ValueZeros(b, d[..], 0, size);
    for k := 0 to |v|
      invariant length <= size && DigitsBelow(d[..], b)
      invariant forall j :: length <= j < size ==> d[j] == 0
      invariant Value(b, d[..], size) == Number(m, v, k)
    {
      PrefixFits(v, m, k + 1);
      length := MultiplyAdd(d, b, m, v[k], length);
    }
  }

  lemma PrefixFits(v: seq<nat>, m: nat, k: nat)
    requires k <= |v| && m > 0 && DigitsBelow(v, m)
    ensures Number(m, v, k) < Pow(m, |v|)
  {
    NumberBound(m, v, k);
    PowMonotone(m, k, |v|);
  }

  /** Reads the digits off a buffer from the top, without leading zeros. */
  method ReadDigits(d: array<nat>, b: nat, length: nat) returns (r: seq<nat>)
    requires b > 1 && length <= d.Length && DigitsBelow(d[..], b)
    requires forall j :: length <= j < d.Length ==> d[j] == 0
    ensures r == Digits(b, Value(b, d[..], d.Length))
  {
    ghost var n := Value(b, d[..], d.Length);
    ValueZeros(b, d[..], length, d.Length);
    var k: nat := length;
    while k > 0 && d[k - 1] == 0
      invariant k <= d.Length && n == Value(b, d[..], k)
    {
      k := k - 1;
    }
    r := [];
    ghost var q: nat := 0;
    while k > 0
      invariant 0 <= k <= d.Length && r == Digits(b, q) && n == Value(b, d[..], k) + q * Pow(b, k)
      invariant k > 0 && q == 0 ==> d[k - 1] != 0
    {
      k := k - 1;
      r := r + [d[k]];
      q := ReadNext(b, d[..], k, q);
    }
  }

  lemma ReadNext(b: nat, d: seq<nat>, k: nat, q: nat) returns (n: nat)
    requires k < |d| && b > 1 && DigitsBelow(d, b) && (q > 0 || d[k] != 0)
    ensures n > 0 && Digits(b, n) == Digits(b, q) + [d[k]]
    ensures Value(b, d, k + 1) + q * Pow(b, k + 1) == Value(b, d, k) + n * Pow(b, k)
  {
    MulMonotone(0, q, b);
    if q > 0 {
      MulMonotone(1, q, b);
    }
    n := q * b + d[k];
    DigitsNext(b, q, d[k], n);
    ShiftDigit(q, b, d[k], Pow(b, k), n);
  }

  lemma ShiftDigit(q: int, b: int, x: int, p: int, n: int)
    requires n == q * b + x
    ensures x * p + q * (b * p) == n * p
  {
    MulAssociates(q, b, p);
  }
}
