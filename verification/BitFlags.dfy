/** The cache's collection flags, eight to a byte. */
module BitFlags {
  import opened Bits8

  class Flags {
    const mem: array<Byte>

    ghost predicate IsSet(s: nat)
      requires s < 8 * mem.Length
      reads mem
    {
      Bit(mem[s / 8], s % 8)
    }

    /** Room for at least the given number of flags, all of them set. */
    constructor (size: nat)
      ensures fresh(mem) && 8 * mem.Length >= size && mem.Length == (size + 7) / 8
      ensures forall s :: 0 <= s < 8 * mem.Length ==> IsSet(s)
    {
      mem := new Byte[(size + 7) / 8](_ => 0xff);
      new;
      forall s | 0 <= s < 8 * mem.Length ensures IsSet(s) { AllBits(s % 8); }
    }

    method Set(s: nat)
      requires s < 8 * mem.Length
      modifies mem
      ensures forall t :: 0 <= t < 8 * mem.Length ==> (IsSet(t) <==> t == s || old(IsSet(t)))
    {
      ghost var was := mem[..];
      mem[s / 8] := mem[s / 8] | ((1 as Byte) << (s % 8));
      forall t | 0 <= t < 8 * mem.Length
        ensures IsSet(t) <==> t == s || old(IsSet(t))
      {
        if t / 8 == s / 8 {
          SetBit(was[s / 8], s % 8, t % 8);
        }
      }
    }

    method Unset(s: nat)
      requires s < 8 * mem.Length
      modifies mem
      ensures forall t :: 0 <= t < 8 * mem.Length ==> (IsSet(t) <==> t != s && old(IsSet(t)))
    {
      ghost var was := mem[..];
      mem[s / 8] := mem[s / 8] & !((1 as Byte) << (s % 8));
      forall t | 0 <= t < 8 * mem.Length
        ensures IsSet(t) <==> t != s && old(IsSet(t))
      {
        if t / 8 == s / 8 {
          ClearBit(was[s / 8], s % 8, t % 8);
        }
      }
    }

    method Query(s: nat) returns (r: bool)
      requires s < 8 * mem.Length
      ensures r <==> IsSet(s)
    {
      r := ((1 as Byte) << (s % 8)) & mem[s / 8] != 0;
    }
  }
}
