/** The loops of bech32.cpp, proved to compute the checksum, the encoding and the decoding. */
module Bech32Code {
  import opened Common
  import opened Bech32Model
  import B = Bech32
  import Field = Bech32Field
  import opened Bech32Text

  /** The generator's n-th multiple as a word. */
  function GeneratorWord(n: nat): Word
    requires n < 5
  {
    seq(30, i requires 0 <= i < 30 => Generator(n, i))
  }

  /** One turn of PolyMod's loop: shift, add the symbol, and add a multiple for each bit that left. */
  method Turn(c: Word, v: Word) returns (r: Word)
    ensures r == Step(c, v)
  {
    r := Xor(seq(30, i requires 0 <= i < 30 => i >= 5 && c[i - 5]), v);
    for n := 0 to 5
      invariant forall i :: 0 <= i < 30 ==> r[i] == Plus(Plus(i >= 5 && c[i - 5], v[i]), Reduced(c, i, n))
    {
      ghost var before := r;
      if c[25 + n] {
        r := Xor(r, GeneratorWord(n));
      }
      forall i | 0 <= i < 30
        ensures r[i] == Plus(Plus(i >= 5 && c[i - 5], v[i]), Reduced(c, i, n + 1))
      {
        assert r[i] == Plus(before[i], c[25 + n] && Generator(n, i));
      }
    }
  }

  method PolyMod(v: seq<Byte>) returns (c: Word)
    ensures c == B.PolyMod(v)
    ensures B.AllBelow32(v) ==> Field.IsRemainder(B.Polynomial(v), Field.Unpack(c))
  {
    if B.AllBelow32(v) {
      B.PolyModIsRemainder(v);
    }
    ghost var w := B.Words(v);
    c := ByteWord(1);
    for k := 0 to |v|
      invariant c == Fold(B.ONE, w, k)
    {
      c := Turn(c, ByteWord(v[k]));
    }
  }

  method ExpandHrp(hrp: seq<Byte>) returns (ret: seq<Byte>)
    ensures ret == B.ExpandHrp(hrp)
  {
    var n := |hrp|;
    ret := seq(2 * n + 1, _ => 0);
    for i := 0 to n
      invariant |ret| == 2 * n + 1 && ret[n] == 0
      invariant forall j :: 0 <= j < i ==> ret[j] == hrp[j] / 32
      invariant forall j :: 0 <= j < i ==> ret[n + 1 + j] == hrp[j] % 32
    {
      ret := ret[i := hrp[i] / 32][n + 1 + i := hrp[i] % 32];
    }
  }

  method VerifyChecksum(hrp: seq<Byte>, values: seq<Byte>) returns (ok: bool)
    ensures ok == B.VerifyChecksum(hrp, values)
    ensures B.AllBelow32(values) ==> (ok <==> Field.IsRemainder(B.Polynomial(B.ExpandHrp(hrp) + values), B.UNIT))
  {
    if B.AllBelow32(values) {
      B.VerifiesExactly(hrp, values);
    }
    var e := ExpandHrp(hrp);
    var c := PolyMod(e + values);
    ok := c == ByteWord(1);
  }

  method CreateChecksum(hrp: seq<Byte>, values: seq<Byte>) returns (ret: seq<Byte>)
    ensures ret == B.CreateChecksum(hrp, values)
  {
    var e := ExpandHrp(hrp);
    var m := PolyMod(e + values + B.Zeros(6));
    var mod := Xor(m, ByteWord(1));
    ret := [];
    for i := 0 to 6
      invariant |ret| == i && forall j :: 0 <= j < i ==> ret[j] == Group(mod, 5 * (5 - j))
    {
      ret := ret + [Group(mod, 5 * (5 - i))];
    }
  }

  method Encode(hrp: seq<Byte>, values: seq<Byte>) returns (ret: seq<Byte>)
    ensures ret == Bech32Text.Encode(hrp, values)
  {
    var checksum := CreateChecksum(hrp, values);
    var combined := values + checksum;
    ret := hrp + [B.SEPARATOR];
    for k := 0 to |combined|
      invariant B.AllBelow32(combined[..k]) && ret == hrp + [B.SEPARATOR] + Data(combined[..k])
    {
      if combined[k] >= 32 {
        return [];
      }
      assert combined[..k + 1] == combined[..k] + [combined[k]];
      ret := ret + [Symbol(combined[k])];
    }
    assert combined[..|combined|] == combined;
  }

  /** Is every character printable, and are there not letters of both cases? */
  method OneCase(s: seq<Byte>) returns (ok: bool)
    ensures ok <==> AllPrintable(s) && !(AnyLower(s) && AnyUpper(s))
  {
    var lower, upper := false, false;
    for i := 0 to |s|
      invariant forall j :: 0 <= j < i ==> IsPrintable(s[j])
      invariant lower <==> exists j :: 0 <= j < i && IsLower(s[j])
      invariant upper <==> exists j :: 0 <= j < i && IsUpper(s[j])
    {
      if s[i] < 33 || s[i] > 126 {
        return false;
      }
      lower := lower || IsLower(s[i]);
      upper := upper || IsUpper(s[i]);
    }
    ok := !(lower && upper);
  }

  /** The position of the last separator, or -1. */
  method FindSeparator(s: seq<Byte>) returns (p: int)
    ensures p == LastSeparator(s, |s|)
  {
    p := |s| - 1;
    while p >= 0 && s[p] != B.SEPARATOR
      invariant -1 <= p < |s| && LastSeparator(s, |s|) == LastSeparator(s, p + 1)
    {
      p := p - 1;
    }
  }

  /** The values of the characters from p on, if they all have one. */
  method ReadValues(s: seq<Byte>, p: nat) returns (ok: bool, values: seq<Byte>)
    requires p <= |s|
    ensures ok <==> AllData(s[p..])
    ensures ok ==> values == Values(s[p..])
  {
    values := [];
    var d := s[p..];
    for i := 0 to |d|
      invariant |values| == i
      invariant forall j :: 0 <= j < i ==> SymbolValue(d[j]) == Some(values[j])
    {
      if SymbolValue(d[i]).None? {
        return false, [];
      }
      values := values + [SymbolValue(d[i]).value];
    }
    ok := true;
  }

  method Lower(s: seq<Byte>) returns (t: seq<Byte>)
    ensures t == Lowered(s)
  {
    t := [];
    for i := 0 to |s|
      invariant |t| == i && forall j :: 0 <= j < i ==> t[j] == LowerCase(s[j])
    {
      t := t + [LowerCase(s[i])];
    }
  }

  method Decode(s: seq<Byte>) returns (r: Option<B.Parts>)
    ensures r == Bech32Text.Decode(s)
  {
    var ok := OneCase(s);
    if !ok {
      return None;
    }
    var pos := FindSeparator(s);
    if |s| > 1023 || pos == -1 || pos == 0 || pos + 7 > |s| {
      return None;
    }
    var values;
    ok, values := ReadValues(s, pos + 1);
    if !ok {
      return None;
    }
    var hrp := Lower(s[..pos]);
    ok := VerifyChecksum(hrp, values);
    r := if ok then Some(B.Parts(hrp, values[..|values| - 6])) else None;
  }
}
