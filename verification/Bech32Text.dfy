/** Bech32 strings: how symbols are written, and encoding and decoding a prefix with its values. */
module Bech32Text {
  import opened Common
  import opened Bech32

  // ---- characters

  /** The character of a symbol. */
  function Symbol(v: Byte): Byte
    requires v < 32
  {
    match v
    case 0 => 113 case 1 => 112 case 2 => 122 case 3 => 114 case 4 => 121 case 5 => 57 case 6 => 120 case 7 => 56
    case 8 => 103 case 9 => 102 case 10 => 50 case 11 => 116 case 12 => 118 case 13 => 100 case 14 => 119 case 15 => 48
    case 16 => 115 case 17 => 51 case 18 => 106 case 19 => 110 case 20 => 53 case 21 => 52 case 22 => 107 case 23 => 104
    case 24 => 99 case 25 => 101 case 26 => 54 case 27 => 109 case 28 => 117 case 29 => 97 case 30 => 55 case _ => 108
  }

  predicate IsLower(c: Byte) { 97 <= c <= 122 }
  predicate IsUpper(c: Byte) { 65 <= c <= 90 }
  predicate IsPrintable(c: Byte) { 33 <= c <= 126 }
  function LowerCase(c: Byte): Byte { if IsUpper(c) then c + 32 else c }

  /** The value of a lower-case character. */
  function LowerValue(c: Byte): Option<Byte> {
    match c
    case 113 => Some(0) case 112 => Some(1) case 122 => Some(2) case 114 => Some(3)
    case 121 => Some(4) case 57 => Some(5) case 120 => Some(6) case 56 => Some(7)
    case 103 => Some(8) case 102 => Some(9) case 50 => Some(10) case 116 => Some(11)
    case 118 => Some(12) case 100 => Some(13) case 119 => Some(14) case 48 => Some(15)
    case 115 => Some(16) case 51 => Some(17) case 106 => Some(18) case 110 => Some(19)
    case 53 => Some(20) case 52 => Some(21) case 107 => Some(22) case 104 => Some(23)
    case 99 => Some(24) case 101 => Some(25) case 54 => Some(26) case 109 => Some(27)
    case 117 => Some(28) case 97 => Some(29) case 55 => Some(30) case 108 => Some(31)
    case _ => None
  }

  /** The value of a character, in either case. */
  function SymbolValue(c: Byte): Option<Byte> { LowerValue(LowerCase(c)) }

  const CHARSET := "qpzry9x8gf2tvdw0s3jn54khce6mua7l"

  /** The symbols are written as the character set lists them. */
  lemma SymbolsOfCharset(v: Byte)
    requires v < 32
    ensures Symbol(v) as int == CHARSET[v] as int
  {
  }

  lemma ValueOfSymbol(v: Byte)
    requires v < 32
    ensures LowerValue(Symbol(v)) == Some(v)
    ensures IsPrintable(Symbol(v)) && !IsUpper(Symbol(v)) && Symbol(v) != SEPARATOR
  {
  }

  lemma SymbolOfValue(c: Byte)
    requires LowerValue(c).Some?
    ensures LowerValue(c).value < 32 && Symbol(LowerValue(c).value) == c
  {
  }

  // ---- encoding

  function Data(v: seq<Byte>): (d: seq<Byte>)
    requires AllBelow32(v)
    ensures |d| == |v|
  {
    seq(|v|, i requires 0 <= i < |v| => Symbol(v[i]))
  }

  /** Prefix, separator, values and checksum; empty where a value is no symbol. */
  function Encode(hrp: seq<Byte>, values: seq<Byte>): seq<Byte> {
    var combined := values + CreateChecksum(hrp, values);
    if AllBelow32(combined) then hrp + [SEPARATOR] + Data(combined) else []
  }

  // ---- decoding

  predicate AllPrintable(s: seq<Byte>) { forall i :: 0 <= i < |s| ==> IsPrintable(s[i]) }
  predicate AnyLower(s: seq<Byte>) { exists i :: 0 <= i < |s| && IsLower(s[i]) }
  predicate AnyUpper(s: seq<Byte>) { exists i :: 0 <= i < |s| && IsUpper(s[i]) }
  predicate AllData(s: seq<Byte>) { forall i :: 0 <= i < |s| ==> SymbolValue(s[i]).Some? }

  /** The position of the last separator before k, or -1. */
  function LastSeparator(s: seq<Byte>, k: nat): (p: int)
    requires k <= |s|
    ensures -1 <= p < k && (p >= 0 ==> s[p] == SEPARATOR) && forall i :: p < i < k ==> s[i] != SEPARATOR
  {
    if k == 0 then -1 else if s[k - 1] == SEPARATOR then k - 1 else LastSeparator(s, k - 1)
  }

  function Lowered(s: seq<Byte>): (t: seq<Byte>)
    ensures |t| == |s|
  {
    seq(|s|, i requires 0 <= i < |s| => LowerCase(s[i]))
  }

  function Values(d: seq<Byte>): (v: seq<Byte>)
    requires AllData(d)
    ensures |v| == |d|
  {
    seq(|d|, i requires 0 <= i < |d| => SymbolValue(d[i]).value)
  }

  /** One case, printable, not too long, and with a separator that leaves a prefix and a checksum. */
  predicate WellFormed(s: seq<Byte>) {
    && AllPrintable(s) && !(AnyLower(s) && AnyUpper(s)) && |s| <= 1023
    && 0 < LastSeparator(s, |s|) && LastSeparator(s, |s|) + 7 <= |s|
    && AllData(s[LastSeparator(s, |s|) + 1..])
  }

  function Decode(s: seq<Byte>): Option<Parts> {
    if !WellFormed(s) then None else
    var p := LastSeparator(s, |s|);
    var hrp, values := Lowered(s[..p]), Values(s[p + 1..]);
    if VerifyChecksum(hrp, values) then Some(Parts(hrp, values[..|values| - 6])) else None
  }

  // ---- round trips

  predicate Encodable(hrp: seq<Byte>, values: seq<Byte>) {
    hrp != [] && AllPrintable(hrp) && !AnyUpper(hrp) && AllBelow32(values) && |hrp| + |values| + 7 <= 1023
  }

  lemma DataValues(v: seq<Byte>)
    requires AllBelow32(v)
    ensures AllData(Data(v)) && Values(Data(v)) == v
    ensures forall i :: 0 <= i < |v| ==> IsPrintable(Data(v)[i]) && !IsUpper(Data(v)[i]) && Data(v)[i] != SEPARATOR
  {
    forall i | 0 <= i < |v|
      ensures SymbolValue(Data(v)[i]) == Some(v[i])
      ensures IsPrintable(Data(v)[i]) && !IsUpper(Data(v)[i]) && Data(v)[i] != SEPARATOR
    {
      ValueOfSymbol(v[i]);
    }
  }

  lemma ValuesData(d: seq<Byte>)
    requires AllData(d)
    ensures AllBelow32(Values(d)) && Data(Values(d)) == Lowered(d)
  {
    forall i | 0 <= i < |d|
      ensures Values(d)[i] < 32 && Symbol(Values(d)[i]) == LowerCase(d[i])
    {
      SymbolOfValue(LowerCase(d[i]));
    }
  }

  lemma LoweredIsSame(s: seq<Byte>)
    ensures Lowered(s) == s <==> !AnyUpper(s)
  {
    if AnyUpper(s) {
      var i :| 0 <= i < |s| && IsUpper(s[i]);
      assert Lowered(s)[i] != s[i];
    }
  }

  /** The parts of an encoded string. */
  lemma PartsOf(hrp: seq<Byte>, values: seq<Byte>)
    requires AllBelow32(values)
    ensures var s := Encode(hrp, values);
      && |s| == |hrp| + 7 + |values| && LastSeparator(s, |s|) == |hrp| && s[..|hrp|] == hrp
      && AllData(s[|hrp| + 1..]) && Values(s[|hrp| + 1..]) == values + CreateChecksum(hrp, values)
      && (AllPrintable(s) <==> AllPrintable(hrp)) && (AnyUpper(s) <==> AnyUpper(hrp))
  {
    var c := values + CreateChecksum(hrp, values);
    DataValues(c);
    JoinedText(hrp, Data(c), Encode(hrp, values));
  }

  /** Text before and after a separator, the latter of printable lower-case characters and no separator. */
  lemma JoinedText(hrp: seq<Byte>, d: seq<Byte>, s: seq<Byte>)
    requires s == hrp + [SEPARATOR] + d
    requires forall i :: 0 <= i < |d| ==> IsPrintable(d[i]) && !IsUpper(d[i]) && d[i] != SEPARATOR
    ensures LastSeparator(s, |s|) == |hrp| && s[..|hrp|] == hrp && s[|hrp| + 1..] == d
    ensures (AllPrintable(s) <==> AllPrintable(hrp)) && (AnyUpper(s) <==> AnyUpper(hrp))
  {
    var n := |hrp|;
    assert forall i :: 0 <= i < n ==> s[i] == hrp[i];
    assert forall i :: n < i < |s| ==> s[i] == d[i - n - 1];
    assert s[n] == SEPARATOR;
    SeparatorAt(s, n);
    if AllPrintable(s) {
      forall i | 0 <= i < n ensures IsPrintable(hrp[i]) { assert IsPrintable(s[i]); }
    }
    if AnyUpper(hrp) {
      var i :| 0 <= i < n && IsUpper(hrp[i]);
      assert IsUpper(s[i]);
    }
  }

  lemma SeparatorAt(s: seq<Byte>, n: nat)
    requires n < |s| && s[n] == SEPARATOR && forall i :: n < i < |s| ==> s[i] != SEPARATOR
    ensures LastSeparator(s, |s|) == n
  {
  }

  /** Decoding an encoded string returns what was encoded, exactly for what can be encoded. */
  lemma DecodeEncode(hrp: seq<Byte>, values: seq<Byte>)
    ensures Decode(Encode(hrp, values)) == Some(Parts(hrp, values)) <==> Encodable(hrp, values)
  {
    var s, c := Encode(hrp, values), CreateChecksum(hrp, values);
    if AllBelow32(values) {
      PartsOf(hrp, values);
      LoweredIsSame(hrp);
      ChecksumVerifies(hrp, values);
      assert (values + c)[..|values|] == values;
    } else {
      NoSymbols(values, c);
      assert s == [];
      assert LastSeparator(s, |s|) == -1;
    }
  }

  lemma NoSymbols(values: seq<Byte>, c: seq<Byte>)
    requires !AllBelow32(values)
    ensures !AllBelow32(values + c)
  {
    var i :| 0 <= i < |values| && values[i] >= 32;
    assert (values + c)[i] == values[i];
  }

  lemma LoweredSplit(s: seq<Byte>, p: nat)
    requires p < |s| && s[p] == SEPARATOR
    ensures Lowered(s) == Lowered(s[..p]) + [SEPARATOR] + Lowered(s[p + 1..])
  {
  }

  lemma LastSixAreChecksum(hrp: seq<Byte>, all: seq<Byte>, k: nat)
    requires k + 6 == |all| && AllBelow32(all) && VerifyChecksum(hrp, all)
    ensures Encode(hrp, all[..k]) == hrp + [SEPARATOR] + Data(all)
  {
    var v, c := all[..k], all[k..];
    assert all == v + c;
    ChecksumIsUnique(hrp, v, c);
  }

  /** Whatever is accepted is the encoding of its result, up to case. */
  lemma EncodeDecode(s: seq<Byte>)
    requires Decode(s).Some?
    ensures Encode(Decode(s).value.hrp, Decode(s).value.values) == Lowered(s)
  {
    var p := LastSeparator(s, |s|);
    var all := Values(s[p + 1..]);
    ValuesData(s[p + 1..]);
    LastSixAreChecksum(Lowered(s[..p]), all, |all| - 6);
    LoweredSplit(s, p);
  }
}
