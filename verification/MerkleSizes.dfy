/**
 The size of a serialized partial Merkle tree. The documentation guarantees at most
 10 + ceil(32.25 * N) bytes for N hashes; the code keeps that exactly under a condition
 on N and on the number of flag bits beyond 2 * N - 1.
 */
module MerkleSizes {
  import opened Powers
  import opened MerkleModel
  import opened Merkle
  import opened MerkleTheorems

  /** The bytes of a length in front of a vector. */
  function CompactSize(n: nat): nat {
    if n < 253 then 1 else if n < 0x1_0000 then 3 else if n < 0x1_0000_0000 then 5 else 9
  }

  function FlagBytes(t: Stream): nat { (|t.bits| + 7) / 8 }

  /** The number of transactions, the hashes and the flag bytes. */
  function SerializedSize(t: Stream): nat {
    4 + CompactSize(|t.hashes|) + 32 * |t.hashes| + CompactSize(FlagBytes(t)) + FlagBytes(t)
  }

  /** 10 + ceil(32.25 * n) */
  function DocumentedSize(n: nat): nat { 10 + (129 * n + 3) / 4 }

  /** How many levels up to h - 1 are odd and have a match below the node over their last one. */
  function OddTails(match_: seq<bool>, h: nat): nat
    requires match_ != []
  {
    if h == 0 then 0 else
    OddTails(match_, h - 1) + if Width(|match_|, h - 1) % 2 == 1 &&
      AnyMatch(match_, TailStart(|match_|, h), |match_|) then 1 else 0
  }

  /** Where the last node of a level has no match below it, no lower last node has. */
  lemma {:induction false} NoOddTails(match_: seq<bool>, h: nat, lo: nat)
    requires match_ != [] && lo <= |match_| && !AnyMatch(match_, lo, |match_|)
    requires forall g :: 0 <= g <= h ==> TailStart(|match_|, g) >= lo
    ensures OddTails(match_, h) == 0
  {
    if h > 0 {
      NoOddTails(match_, h - 1, lo);
      assert TailStart(|match_|, h) >= lo;
    }
  }

  /** The single-child nodes an encoding descends into are the last ones over odd levels with a match. */
  lemma {:induction false} SinglesCount(match_: seq<bool>, h: nat, pos: nat)
    requires pos < Width(|match_|, h)
    ensures match_ != []
    ensures Singles(match_, h, pos) == if pos + 1 < Width(|match_|, h) then 0 else OddTails(match_, h)
    decreases h
  {
    var n := |match_|;
    LeavesOfNode(n, h, pos);
    if h > 0 {
      SinglesCount(match_, h - 1, 2 * pos);
      if 2 * pos + 1 < Width(n, h - 1) {
        SinglesCount(match_, h - 1, 2 * pos + 1);
      }
      if pos + 1 == Width(n, h) {
        LastMeetsFirst(n, h, pos);
        if !ParentOfMatch(match_, h, pos) {
          TailsNest(match_, h);
          NoOddTails(match_, h, TailStart(n, h));
        }
      }
    }
  }

  lemma {:induction false} OddTailsBound(match_: seq<bool>, h: nat)
    requires match_ != []
    ensures OddTails(match_, h) <= h
  {
    if h > 0 { OddTailsBound(match_, h - 1); }
  }

  /** Within the limit on transactions the tree has at most sixteen levels above its leaves. */
  lemma HeightBound(n: nat)
    requires n <= MAX_TRANSACTIONS
    ensures Height(n) <= 16
  {
    WidthIsCeil(n, 16);
    PowersOfTwo();
  }

  /** The arithmetic of the bound: N hashes and s bits beyond 2 * N - 1. */
  lemma BoundExactly(n: nat, s: nat, bytes: nat)
    requires 0 < n <= MAX_TRANSACTIONS && s <= 16 && bytes == (2 * n - 1 + s + 7) / 8
    ensures bytes <= (n + 3) / 4 + 2
    ensures 4 + CompactSize(n) + 32 * n + CompactSize(bytes) + bytes <= DocumentedSize(n) + 2
    ensures 4 + CompactSize(n) + 32 * n + CompactSize(bytes) + bytes <= DocumentedSize(n)
      <==> bytes < 253 || s + 2 * ((n + 3) % 4) < 8
  {
    var q, r := (n + 3) / 4, (n + 3) % 4;
    assert n + 3 == 4 * q + r;
    assert 2 * n - 1 + s + 7 == 8 * q + (2 * r + s);
    assert bytes == q + (2 * r + s) / 8;
    assert (129 * n + 3) / 4 == 32 * n + q;
  }

  /**
   The documented size is kept exactly when the flag bytes number fewer than 253, or the bits
   beyond 2 * N - 1 still fit the last byte; and never exceeded by more than two bytes.
   */
  lemma SizeWithinBound(pair: Pair, txids: seq<Hash>, match_: seq<bool>)
    requires |match_| == |txids| && 0 < |txids| <= MAX_TRANSACTIONS
    ensures Width(|txids|, Height(|txids|)) == 1
    ensures var t := Build(pair, txids, match_, Height(|txids|), 0);
      var n, s := |t.hashes|, OddTails(match_, Height(|txids|));
      && FlagBytes(t) == (2 * n + 6 + s) / 8
      && SerializedSize(t) <= DocumentedSize(n) + 2
      && (SerializedSize(t) <= DocumentedSize(n) <==> FlagBytes(t) < 253 || s + 2 * ((n + 3) % 4) < 8)
  {
    var h := Height(|txids|);
    RootExists(|txids|);
    BitCount(pair, txids, match_, h, 0);
    SinglesCount(match_, h, 0);
    OddTailsBound(match_, h);
    HeightBound(|txids|);
    HashesFit(pair, txids, match_, h, 0);
    LeavesOfNode(|txids|, h, 0);
    HasHash(pair, txids, match_, h, 0);
    var t := Build(pair, txids, match_, h, 0);
    BoundExactly(|t.hashes|, OddTails(match_, h), FlagBytes(t));
  }

  lemma {:induction false} HasHash(pair: Pair, txids: seq<Hash>, match_: seq<bool>, h: nat, pos: nat)
    requires |match_| == |txids| && pos < Width(|txids|, h)
    ensures Build(pair, txids, match_, h, pos).hashes != []
    decreases h
  {
    if h > 0 && ParentOfMatch(match_, h, pos) {
      HasHash(pair, txids, match_, h - 1, 2 * pos);
    }
  }

  /** Up to a thousand transactions the documented size is kept. */
  lemma SmallBlocksFit(pair: Pair, txids: seq<Hash>, match_: seq<bool>)
    requires |match_| == |txids| && 0 < |txids| <= 1000
    ensures Width(|txids|, Height(|txids|)) == 1
    ensures var t := Build(pair, txids, match_, Height(|txids|), 0);
      SerializedSize(t) <= DocumentedSize(|t.hashes|)
  {
    var h := Height(|txids|);
    SizeWithinBound(pair, txids, match_);
    OddTailsBound(match_, h);
    HeightBound(|txids|);
    HashesFit(pair, txids, match_, h, 0);
    LeavesOfNode(|txids|, h, 0);
  }

  // ---- a block whose encoding is too long

  ghost predicate AllMatched(match_: seq<bool>) { forall i :: 0 <= i < |match_| ==> match_[i] }

  /** With every transaction selected there is a hash for each. */
  lemma {:induction false} EveryLeafHashed(pair: Pair, txids: seq<Hash>, match_: seq<bool>, h: nat, pos: nat)
    requires |match_| == |txids| && pos < Width(|txids|, h) && AllMatched(match_)
    ensures |Build(pair, txids, match_, h, pos).hashes| == Leaves(|txids|, h, pos)
    decreases h
  {
    LeavesOfNode(|txids|, h, pos);
    if h > 0 {
      assert match_[First(h, pos)];
      LeavesSplit(|txids|, h, pos);
      EveryLeafHashed(pair, txids, match_, h - 1, 2 * pos);
      if 2 * pos + 1 < Width(|txids|, h - 1) {
        EveryLeafHashed(pair, txids, match_, h - 1, 2 * pos + 1);
      }
    }
  }

  lemma OddTailNext(match_: seq<bool>, h: nat)
    requires match_ != [] && AllMatched(match_)
    ensures OddTails(match_, h + 1) == OddTails(match_, h) + Width(|match_|, h) % 2
  {
    assert match_[TailStart(|match_|, h + 1)];
  }

  lemma WidthsOf1012()
    ensures forall h :: 0 <= h <= 10 ==> Width(1012, h) == [1012, 506, 253, 127, 64, 32, 16, 8, 4, 2, 1][h]
    ensures Height(1012) == 10
  {
    assert Width(1012, 2) == 253;
    assert Width(1012, 4) == 64;
    assert Width(1012, 6) == 16;
    assert Width(1012, 8) == 4;
    assert Width(1012, 10) == 1;
  }

  lemma TwoOddTails(match_: seq<bool>)
    requires |match_| == 1012 && AllMatched(match_)
    ensures OddTails(match_, Height(|match_|)) == 2
  {
    WidthsOf1012();
    for h := 0 to 10
      invariant OddTails(match_, h) == [0, 0, 0, 1, 2, 2, 2, 2, 2, 2, 2][h]
    {
      OddTailNext(match_, h);
    }
  }

  lemma AllHashed(pair: Pair, txids: seq<Hash>, match_: seq<bool>, h: nat)
    requires |match_| == |txids| && Width(|txids|, h) == 1 && AllMatched(match_)
    ensures |Build(pair, txids, match_, h, 0).hashes| == |txids|
  {
    EveryLeafHashed(pair, txids, match_, h, 0);
    FirstFormula(h, 0);
    LastMeetsFirst(|txids|, h, 0);
  }

  lemma OneByteMore(n: nat, bytes: nat)
    requires 1012 <= n <= MAX_TRANSACTIONS && n % 4 == 0 && bytes == (2 * n + 8) / 8
    ensures 4 + CompactSize(n) + 32 * n + CompactSize(bytes) + bytes == DocumentedSize(n) + 1
  {
    var m := n / 4;
    assert n == 4 * m && bytes == m + 1;
  }

  /**
   All of a large block selected, with two odd levels and the hashes filling their last byte of
   flags: one byte more than documented.
   */
  lemma LargeBlockExceeds(pair: Pair, txids: seq<Hash>, match_: seq<bool>)
    requires |match_| == |txids| && 1012 <= |txids| <= MAX_TRANSACTIONS && |txids| % 4 == 0
    requires AllMatched(match_) && OddTails(match_, Height(|txids|)) == 2
    ensures Width(|txids|, Height(|txids|)) == 1
    ensures var t := Build(pair, txids, match_, Height(|txids|), 0);
      |t.hashes| == |txids| && SerializedSize(t) == DocumentedSize(|t.hashes|) + 1
  {
    SizeWithinBound(pair, txids, match_);
    AllHashed(pair, txids, match_, Height(|txids|));
    OneByteMore(|txids|, FlagBytes(Build(pair, txids, match_, Height(|txids|), 0)));
  }

  /** All of 1012 transactions selected: one byte more than documented. */
  lemma SizeExceeded(pair: Pair, txids: seq<Hash>, match_: seq<bool>)
    requires |match_| == |txids| == 1012 && AllMatched(match_)
    ensures Width(|txids|, Height(|txids|)) == 1
    ensures var t := Build(pair, txids, match_, Height(|txids|), 0);
      |t.hashes| == 1012 && SerializedSize(t) == DocumentedSize(|t.hashes|) + 1
  {
    TwoOddTails(match_);
    LargeBlockExceeds(pair, txids, match_);
  }
}
