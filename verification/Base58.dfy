/**
 Base58: what the encoding is, that it is one-to-one in both directions, that its buffers
 always suffice, and the code that computes it.
 */
module Base58 {
  import opened Common
  import opened Powers
  import opened Radix
  import opened RadixBuffer

  // ---- the buffers suffice

  lemma {:induction false} PowBaseMonotone(a: nat, b: nat, k: nat)
    requires a <= b
    ensures Pow(a, k) <= Pow(b, k) && (a < b && k > 0 ==> Pow(a, k) < Pow(b, k))
  {
    if k > 0 {
      PowBaseMonotone(a, b, k - 1);
      MulMonotone(Pow(a, k - 1), Pow(b, k - 1), a);
      MulMonotone(a, b, Pow(b, k - 1));
      if a < b {
        MulStrict(a, b, Pow(b, k - 1));
      }
    }
  }

  /** From a comparison of two powers to one of all powers in a larger proportion. */
  lemma RootBound(a: nat, p: nat, b: nat, q: nat, n: nat, e: nat)
    requires p > 0 && b > 0 && Pow(a, p) <= Pow(b, q) && q * n <= p * e
    ensures Pow(a, n) <= Pow(b, e)
  {
    var x, y := Pow(a, n), Pow(b, e);
    MulMonotone(0, n, p);
    MulMonotone(0, n, q);
    MulMonotone(0, e, p);
    var pn: nat, qn: nat, pe: nat := p * n, q * n, p * e;
    PowMul(a, p, n, pn);
    PowMul(a, n, p, pn);
    PowMul(b, q, n, qn);
    PowMul(b, e, p, pe);
    PowBaseMonotone(Pow(a, p), Pow(b, q), n);
    PowMonotone(b, qn, pe);
    if x > y {
      PowBaseMonotone(y, x, p);
    }
  }

  /** One more entry of a table of powers. */
  lemma PowEntry(b: nat, d: nat, x: nat, e: nat, y: nat, z: nat) returns (s: nat)
    requires Pow(b, d) == x && Pow(b, e) == y && z == x * y
    ensures s == d + e && Pow(b, s) == z
  {
    PowAdd(b, d, e);
    s := d + e;
  }

  lemma PowersOf58(b: nat) returns (e11: nat, e71: nat)
    requires b == 58
    ensures e11 == 11 && Pow(b, e11) == 24986644000165537792
    ensures e71 == 71
    ensures Pow(b, e71) == 159730386663078066345306447337161584696769904898410078913243029577507397293846405390982563136983769384625594118558891106107392
  {
    var e0: nat := 0;
    var e1: nat := e0 + 1;
    assert Pow(b, e1) == b * Pow(b, e0);
    var e2 := PowEntry(b, e1, 58, e1, 58, 3364);
    var e4 := PowEntry(b, e2, 3364, e2, 3364, 11316496);
    var e8 := PowEntry(b, e4, 11316496, e4, 11316496, 128063081718016);
    var e16 := PowEntry(b, e8, 128063081718016, e8, 128063081718016, 16400152899115243850138976256);
    var e32 := PowEntry(b, e16, 16400152899115243850138976256, e16, 16400152899115243850138976256,
                        268965015114358137726910587140455987105619365599731777536);
    var e64 := PowEntry(b, e32, 268965015114358137726910587140455987105619365599731777536,
                        e32, 268965015114358137726910587140455987105619365599731777536,
                        72342179355466901471258927612150153907721848234316445933056526044582001260898145151856420451025374266490194231296);
    var e3 := PowEntry(b, e2, 3364, e1, 58, 195112);
    e11 := PowEntry(b, e8, 128063081718016, e3, 195112, 24986644000165537792);
    var e7 := PowEntry(b, e4, 11316496, e3, 195112, 2207984167552);
    e71 := PowEntry(b, e64, 72342179355466901471258927612150153907721848234316445933056526044582001260898145151856420451025374266490194231296,
                    e7, 2207984167552,
                    159730386663078066345306447337161584696769904898410078913243029577507397293846405390982563136983769384625594118558891106107392);
  }

  lemma PowersOf256(b: nat) returns (e8: nat, e52: nat)
    requires b == 256
    ensures e8 == 8 && Pow(b, e8) == 0x1_0000_0000_0000_0000
    ensures e52 == 52
    ensures Pow(b, e52) == 169230328010303641331690318856389386196071598838855992136870091590247882556495704531248437872567112920983350278405979725889536
  {
    var e0: nat := 0;
    var e1: nat := e0 + 1;
    assert Pow(b, e1) == b * Pow(b, e0);
    var e2 := PowEntry(b, e1, 256, e1, 256, 0x1_0000);
    var e4 := PowEntry(b, e2, 0x1_0000, e2, 0x1_0000, 0x1_0000_0000);
    e8 := PowEntry(b, e4, 0x1_0000_0000, e4, 0x1_0000_0000, 0x1_0000_0000_0000_0000);
    var e16 := PowEntry(b, e8, 0x1_0000_0000_0000_0000, e8, 0x1_0000_0000_0000_0000,
      340282366920938463463374607431768211456);
    var e32 := PowEntry(b, e16, 340282366920938463463374607431768211456, e16, 340282366920938463463374607431768211456,
                        115792089237316195423570985008687907853269984665640564039457584007913129639936);
    var e48 := PowEntry(b, e32, 115792089237316195423570985008687907853269984665640564039457584007913129639936,
                        e16, 340282366920938463463374607431768211456,
                        39402006196394479212279040100143613805079739270465446667948293404245721771497210611414266254884915640806627990306816);
    e52 := PowEntry(b, e48, 39402006196394479212279040100143613805079739270465446667948293404245721771497210611414266254884915640806627990306816,
                    e4, 0x1_0000_0000,
                    169230328010303641331690318856389386196071598838855992136870091590247882556495704531248437872567112920983350278405979725889536);
  }

  function EncodedSize(n: nat): nat { n * 138 / 100 + 1 }
  function DecodedSize(n: nat): nat { n * 733 / 1000 + 1 }

  /** 138/100 of a byte string's length, plus one, is room for its Base58 digits. */
  lemma EncodeFits(n: nat)
    ensures Pow(256, n) <= Pow(58, EncodedSize(n))
  {
    var a: nat, b: nat := 256, 58;
    var q, _ := PowersOf58(b);
    var p, _ := PowersOf256(a);
    RootBound(a, p, b, q, n, EncodedSize(n));
  }

  /** 733/1000 of the number of symbols, plus one, is room for their bytes. */
  lemma DecodeFits(n: nat)
    ensures Pow(58, n) <= Pow(256, DecodedSize(n))
  {
    var a: nat, b: nat := 58, 256;
    var _, p := PowersOf58(a);
    var _, q := PowersOf256(b);
    RootBound(a, p, b, q, n, DecodedSize(n));
  }

  // ---- the encoding

  /** The alphabet: digits and letters without 0, I, O and l. */
  function Symbol(d: nat): char
    requires d < 58
  {
    if d < 9 then '1' + d as char
    else if d < 17 then 'A' + (d - 9) as char
    else if d < 22 then 'J' + (d - 17) as char
    else if d < 33 then 'P' + (d - 22) as char
    else if d < 44 then 'a' + (d - 33) as char
    else 'm' + (d - 44) as char
  }

  /** The value of a symbol. */
  function SymbolValue(c: char): Option<nat> {
    if '1' <= c <= '9' then Some(c as nat - 49)
    else if 'A' <= c <= 'H' then Some(c as nat - 56)
    else if 'J' <= c <= 'N' then Some(c as nat - 57)
    else if 'P' <= c <= 'Z' then Some(c as nat - 58)
    else if 'a' <= c <= 'k' then Some(c as nat - 64)
    else if 'm' <= c <= 'z' then Some(c as nat - 65)
    else None
  }

  lemma SymbolIsValue(d: nat)
    requires d < 58
    ensures SymbolValue(Symbol(d)) == Some(d)
  {
  }

  lemma ValueIsSymbol(c: char)
    requires SymbolValue(c).Some?
    ensures SymbolValue(c).value < 58 && Symbol(SymbolValue(c).value) == c
  {
  }

  /** The symbols are the digits but zero and the letters but I, O and l, in the order of their codes. */
  lemma AlphabetIs(c: char, d: nat, e: nat)
    requires d < e < 58
    ensures SymbolValue(c).Some? <==>
      || '1' <= c <= '9'
      || ('A' <= c <= 'Z' && c != 'I' && c != 'O')
      || ('a' <= c <= 'z' && c != 'l')
    ensures Symbol(d) < Symbol(e)
  {
  }

  predicate IsSpace(c: char) { c == ' ' || '\t' <= c <= '\r' }
  predicate AllSymbols(w: string) { forall i :: 0 <= i < |w| ==> SymbolValue(w[i]).Some? }

  function Text(d: seq<nat>): string
    requires DigitsBelow(d, 58)
  {
    seq(|d|, i requires 0 <= i < |d| => Symbol(d[i]))
  }

  function Values(w: string): (d: seq<nat>)
    requires AllSymbols(w)
    ensures DigitsBelow(d, 58)
  {
    var d := seq(|w|, i requires 0 <= i < |w| => SymbolValue(w[i]).value);
    assert forall i :: 0 <= i < |w| ==> d[i] < 58 by { ValuesBelow(w); }
    d
  }

  lemma ValuesBelow(w: string)
    requires AllSymbols(w)
    ensures forall i :: 0 <= i < |w| ==> SymbolValue(w[i]).value < 58
  {
    forall i | 0 <= i < |w| ensures SymbolValue(w[i]).value < 58 { ValueIsSymbol(w[i]); }
  }

  lemma TextOfValues(w: string)
    requires AllSymbols(w)
    ensures Text(Values(w)) == w
  {
    forall i | 0 <= i < |w| ensures Symbol(Values(w)[i]) == w[i] { ValueIsSymbol(w[i]); }
  }

  lemma ValuesOfText(d: seq<nat>)
    requires DigitsBelow(d, 58)
    ensures AllSymbols(Text(d)) && Values(Text(d)) == d
  {
    forall i | 0 <= i < |d| ensures SymbolValue(Text(d)[i]) == Some(d[i]) { SymbolIsValue(d[i]); }
  }

  /** A C string: what is before the first null character. */
  function CString(s: string): string {
    if s == [] || s[0] == '\0' then [] else [s[0]] + CString(s[1..])
  }

  /** The first position from i on that is no space, and the last one before k. */
  function Start(t: string, i: nat): (r: nat)
    requires i <= |t|
    ensures i <= r <= |t| && (forall j :: i <= j < r ==> IsSpace(t[j])) && (r < |t| ==> !IsSpace(t[r]))
    decreases |t| - i
  {
    if i < |t| && IsSpace(t[i]) then Start(t, i + 1) else i
  }
  function End(t: string, lo: nat, k: nat): (r: nat)
    requires lo <= k <= |t|
    ensures lo <= r <= k && (forall j :: r <= j < k ==> IsSpace(t[j])) && (r > lo ==> !IsSpace(t[r - 1]))
    decreases k
  {
    if k > lo && IsSpace(t[k - 1]) then End(t, lo, k - 1) else k
  }
  function Trim(t: string): string { t[Start(t, 0)..End(t, Start(t, 0), |t|)] }

  function Encode(v: seq<Byte>): string {
    RecodeBack(256, 58, v);
    Text(Recode(256, 58, v))
  }

  /** Spaces around the symbols are ignored; anything else that is no symbol is an error. */
  function Decode(s: string): Option<seq<Byte>> {
    var w := Trim(CString(s));
    if AllSymbols(w) then
      RecodeBack(58, 256, Values(w));
      Some(Recode(58, 256, Values(w)))
    else None
  }

  lemma {:induction false} NoSpaces(t: string)
    requires AllSymbols(t)
    ensures CString(t) == t && Trim(t) == t
  {
    if t != [] {
      NoSpaces(t[1..]);
      assert t == [t[0]] + t[1..];
      assert SymbolValue(t[0]).Some? && SymbolValue(t[|t| - 1]).Some?;
    }
  }

  /** Every byte string can be read back from its encoding. */
  lemma DecodeEncode(v: seq<Byte>)
    ensures Decode(Encode(v)) == Some(v)
  {
    RecodeBack(256, 58, v);
    ValuesOfText(Recode(256, 58, v));
    NoSpaces(Encode(v));
  }

  /** A string is accepted exactly when, without surrounding spaces, it is the encoding of its result. */
  lemma DecodeIsInverse(s: string, v: seq<Byte>)
    ensures Decode(s) == Some(v) <==> Trim(CString(s)) == Encode(v)
  {
    var w := Trim(CString(s));
    if AllSymbols(w) {
      RecodeBack(58, 256, Values(w));
      TextOfValues(w);
    }
    if w == Encode(v) {
      RecodeBack(256, 58, v);
      ValuesOfText(Recode(256, 58, v));
    }
  }

  /** With a four-byte check appended. */
  function EncodeCheck(check: seq<Byte> -> seq<Byte>, v: seq<Byte>): string { Encode(v + check(v)) }

  function DecodeCheck(check: seq<Byte> -> seq<Byte>, s: string): Option<seq<Byte>> {
    match Decode(s)
    case None => None
    case Some(v) =>
      if |v| < 4 then None else
      var body := v[..|v| - 4];
      if check(body) == v[|v| - 4..] then Some(body) else None
  }

  lemma DecodeCheckIsInverse(check: seq<Byte> -> seq<Byte>, s: string, v: seq<Byte>)
    requires |check(v)| == 4
    ensures DecodeCheck(check, s) == Some(v) <==> Trim(CString(s)) == EncodeCheck(check, v)
  {
    DecodeIsInverse(s, v + check(v));
    assert (v + check(v))[..|v|] == v && (v + check(v))[|v|..] == check(v);
    match Decode(s)
    case None =>
    case Some(u) =>
      if |u| >= 4 {
        assert u == u[..|u| - 4] + u[|u| - 4..];
      }
  }

  // ---- the code

  /** Zeros and digits as symbols. */
  method Spell(zeroes: nat, digits: seq<nat>) returns (str: string)
    requires DigitsBelow(digits, 58)
    ensures str == Text(Repeat(0, zeroes) + digits)
  {
    str := Repeat('1', zeroes);
    for k := 0 to |digits|
      invariant |str| == zeroes + k
      invariant forall j :: 0 <= j < zeroes ==> str[j] == '1'
      invariant forall j :: 0 <= j < k ==> str[zeroes + j] == Symbol(digits[j])
    {
      str := str + [Symbol(digits[k])];
    }
  }

  /** The leading zero bytes become ones, the rest goes through the digit buffer. */
  method EncodeBase58(v: seq<Byte>) returns (str: string)
    ensures str == Encode(v)
  {
    var zeroes := 0;
    while zeroes < |v| && v[zeroes] == 0
      invariant zeroes <= |v| && LeadingZeros(v, 0) == LeadingZeros(v, zeroes)
    {
      zeroes := zeroes + 1;
    }
    var body := v[zeroes..];
    EncodeFits(|body|);
    var b58, length := Convert(body, 256, 58, EncodedSize(|body|));
    var digits := ReadDigits(b58, 58, length);
    NumberAfterZeros(256, v, zeroes, body, |body|);
    str := Spell(zeroes, digits);
  }

  /** The symbols from position p on, up to the first space or the end. */
  method ReadSymbols(t: string, p: nat) returns (ok: bool, q: nat, digits: seq<nat>)
    requires p <= |t|
    ensures p <= q <= |t| && (forall j :: p <= j < q ==> !IsSpace(t[j]) && SymbolValue(t[j]).Some?)
    ensures ok ==> (q < |t| ==> IsSpace(t[q])) && AllSymbols(t[p..q]) && digits == Values(t[p..q])
    ensures !ok ==> q < |t| && !IsSpace(t[q]) && SymbolValue(t[q]).None?
  {
    q, digits := p, [];
    while q < |t| && !IsSpace(t[q])
      invariant p <= q <= |t| && (forall j :: p <= j < q ==> !IsSpace(t[j]) && SymbolValue(t[j]).Some?)
      invariant AllSymbols(t[p..q]) && digits == Values(t[p..q])
    {
      if SymbolValue(t[q]).None? {
        return false, q, digits;
      }
      digits := digits + [SymbolValue(t[q]).value];
      q := q + 1;
    }
    ok := true;
  }

  /** What surrounds the symbols decides what is trimmed. */
  lemma TrimIs(t: string, a: nat, e: nat)
    requires a <= e <= |t| && (forall j :: 0 <= j < a ==> IsSpace(t[j])) && (forall j :: e <= j < |t| ==> IsSpace(t[j]))
    requires a < e ==> !IsSpace(t[a]) && !IsSpace(t[e - 1])
    ensures Trim(t) == t[a..e]
  {
    var s := Start(t, 0);
    var r := End(t, s, |t|);
    if a < e {
      assert s == a;
      assert r == e;
    } else {
      assert r == s;
    }
  }

  /** A character between others that are no spaces is not trimmed away. */
  lemma TrimHolds(t: string, j: nat, k: nat)
    requires j <= k < |t| && !IsSpace(t[k]) && Start(t, 0) <= j && SymbolValue(t[j]).None?
    ensures !AllSymbols(Trim(t))
  {
    var s := Start(t, 0);
    var r := End(t, s, |t|);
    assert k < r;
    assert Trim(t)[j - s] == t[j];
  }

  /** The bytes of a string of symbols, or nothing where a character is out of place. */
  method DecodeBase58(s: string) returns (ok: bool, vch: seq<Byte>)
    ensures ok <==> Decode(s).Some?
    ensures ok ==> Decode(s) == Some(vch)
  {
    vch := [];
    var t := CString(s);
    var p := 0;
    while p < |t| && IsSpace(t[p])
      invariant p <= |t| && Start(t, 0) == Start(t, p)
    {
      p := p + 1;
    }
    var start := p;
    while p < |t| && t[p] == '1'
      invariant start <= p <= |t| && forall j :: start <= j < p ==> t[j] == '1'
    {
      p := p + 1;
    }
    var q, digits;
    ok, q, digits := ReadSymbols(t, p);
    if !ok {
      TrimHolds(t, q, q);
      return;
    }
    var r := q;
    while r < |t| && IsSpace(t[r])
      invariant q <= r <= |t| && forall j :: q <= j < r ==> IsSpace(t[j])
    {
      r := r + 1;
    }
    if r < |t| {
      TrimHolds(t, q, r);
      return false, [];
    }
    TrimIs(t, start, q);
    vch := Bytes(t, start, p, q, digits);
  }

  /** A run of ones and the symbols after it, as digits. */
  lemma OnesAndDigits(t: string, start: nat, p: nat, q: nat)
    requires start <= p <= q <= |t| && (forall j :: start <= j < p ==> t[j] == '1') && AllSymbols(t[p..q])
    ensures AllSymbols(t[start..q]) && Values(t[start..q]) == Repeat(0, p - start) + Values(t[p..q])
  {
    assert forall j :: p <= j < q ==> t[p..q][j - p] == t[j];
  }

  /** The bytes that p - start ones and the digits after them stand for. */
  method Bytes(t: string, start: nat, p: nat, q: nat, digits: seq<nat>) returns (vch: seq<Byte>)
    requires start <= p <= q <= |t| && (forall j :: start <= j < p ==> t[j] == '1') && (p < q ==> t[p] != '1')
    requires AllSymbols(t[p..q]) && digits == Values(t[p..q])
    ensures AllSymbols(t[start..q]) && DigitsBelow(Recode(58, 256, Values(t[start..q])), 256)
    ensures vch == Recode(58, 256, Values(t[start..q]))
  {
    var zeroes := p - start;
    DecodeFits(|t| - p);
    PowMonotone(58, |digits|, |t| - p);
    var b256, length := Convert(digits, 58, 256, DecodedSize(|t| - p));
    var bytes := ReadDigits(b256, 256, length);
    vch := Repeat(0, zeroes) + bytes;
    OnesAndDigits(t, start, p, q);
    assert digits != [] ==> digits[0] != 0 by { assert p < q ==> t[p..q][0] == t[p]; }
    RecodeZeros(58, 256, zeroes, digits);
  }

  method EncodeBase58Check(check: seq<Byte> -> seq<Byte>, v: seq<Byte>) returns (str: string)
    ensures str == EncodeCheck(check, v)
  {
    str := EncodeBase58(v + check(v));
  }

  method DecodeBase58Check(check: seq<Byte> -> seq<Byte>, s: string) returns (ok: bool, vch: seq<Byte>)
    ensures ok <==> DecodeCheck(check, s).Some?
    ensures vch == if ok then DecodeCheck(check, s).value else []
  {
    ok, vch := DecodeBase58(s);
    if !ok || |vch| < 4 {
      return false, [];
    }
    if check(vch[..|vch| - 4]) != vch[|vch| - 4..] {
      return false, [];
    }
    vch := vch[..|vch| - 4];
  }
}
