/** Single bits of a byte. */
module Bits8 {
  type Byte = bv8

  predicate Bit(x: Byte, i: nat)
    requires i < 8
  {
    x & ((1 as Byte) << i) != 0
  }

  lemma SetBit(x: Byte, i: nat, j: nat)
    requires i < 8 && j < 8
    ensures Bit(x | ((1 as Byte) << i), j) <==> i == j || Bit(x, j)
    ensures !Bit(0, j)
  {
  }

  lemma AllBits(j: nat)
    requires j < 8
    ensures Bit(0xff, j)
  {
  }

  lemma ClearBit(x: Byte, i: nat, j: nat)
    requires i < 8 && j < 8
    ensures Bit(x & !((1 as Byte) << i), j) <==> i != j && Bit(x, j)
  {
  }
}
