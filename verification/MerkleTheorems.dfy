/**
 What a partial Merkle tree promises: extraction returns exactly what was encoded, the
 encoding is as small as its documentation says, and a selection that hashes to a
 block's root consists of that block's transactions.
 */
module MerkleTheorems {
  import opened MerkleModel
  import opened Merkle

  // ---- sizes

  function Leaves(n: nat, h: nat, pos: nat): nat
    requires pos < Width(n, h)
  {
    LeavesOfNode(n, h, pos);
    Last(n, h, pos) - First(h, pos)
  }

  /** At most one hash for each leaf, and no fewer bits than hashes. */
  lemma {:induction false} HashesFit(pair: Pair, txids: seq<Hash>, match_: seq<bool>, h: nat, pos: nat)
    requires |match_| == |txids| && pos < Width(|txids|, h)
    ensures |Build(pair, txids, match_, h, pos).hashes| <= Leaves(|txids|, h, pos)
    ensures |Build(pair, txids, match_, h, pos).hashes| <= |Build(pair, txids, match_, h, pos).bits|
    decreases h
  {
    LeavesOfNode(|txids|, h, pos);
    if h > 0 && ParentOfMatch(match_, h, pos) {
      LeavesSplit(|txids|, h, pos);
      HashesFit(pair, txids, match_, h - 1, 2 * pos);
      if 2 * pos + 1 < Width(|txids|, h - 1) {
        HashesFit(pair, txids, match_, h - 1, 2 * pos + 1);
      }
    }
  }

  /** At most one hash, and one more for each matched leaf and level above it. */
  lemma {:induction false} HashesFollowMatches(pair: Pair, txids: seq<Hash>, match_: seq<bool>, h: nat, pos: nat)
    requires |match_| == |txids| && pos < Width(|txids|, h)
    ensures |Build(pair, txids, match_, h, pos).hashes| <= 1 + |MatchedAt(txids, match_, h, pos)| * h
    decreases h
  {
    if h > 0 && ParentOfMatch(match_, h, pos) {
      MatchBelow(txids, match_, h, pos);
      MatchedBelow(txids, match_, h, pos);
      var a := |MatchedAt(txids, match_, h - 1, 2 * pos)|;
      HashesFollowMatches(pair, txids, match_, h - 1, 2 * pos);
      if 2 * pos + 1 < Width(|txids|, h - 1) {
        var b := |MatchedAt(txids, match_, h - 1, 2 * pos + 1)|;
        HashesFollowMatches(pair, txids, match_, h - 1, 2 * pos + 1);
        SumBound(a, b, h);
      } else {
        SumBound(a, 0, h);
      }
    }
  }

  lemma SumBound(a: nat, b: nat, h: nat)
    requires h > 0 && a + b > 0
    ensures 1 + a * (h - 1) + 1 + b * (h - 1) <= 1 + (a + b) * h
    ensures 1 + a * (h - 1) <= 1 + (a + b) * h
  {
    assert a * (h - 1) == a * h - a;
    assert b * (h - 1) == b * h - b;
    assert (a + b) * h == a * h + b * h;
  }

  lemma MatchBelow(txids: seq<Hash>, match_: seq<bool>, h: nat, pos: nat)
    requires |match_| == |txids| && pos < Width(|txids|, h)
    ensures ParentOfMatch(match_, h, pos) <==> MatchedAt(txids, match_, h, pos) != []
  {
    LeavesOfNode(|txids|, h, pos);
    NoneMatched(txids, match_, First(h, pos), Last(|txids|, h, pos));
  }

  /** How many nodes with a single child the encoding of a subtree descends into. */
  function Singles(match_: seq<bool>, h: nat, pos: nat): nat
    requires pos < Width(|match_|, h)
    decreases h
  {
    if h == 0 || !ParentOfMatch(match_, h, pos) then 0 else
    Singles(match_, h - 1, 2 * pos)
      + if 2 * pos + 1 < Width(|match_|, h - 1) then Singles(match_, h - 1, 2 * pos + 1) else 1
  }

  /** The exact number of flag bits. */
  lemma {:induction false} BitCount(pair: Pair, txids: seq<Hash>, match_: seq<bool>, h: nat, pos: nat)
    requires |match_| == |txids| && pos < Width(|txids|, h)
    ensures var t := Build(pair, txids, match_, h, pos);
      |t.bits| == 2 * |t.hashes| - 1 + Singles(match_, h, pos)
    decreases h
  {
    if h > 0 && ParentOfMatch(match_, h, pos) {
      BitCount(pair, txids, match_, h - 1, 2 * pos);
      if 2 * pos + 1 < Width(|txids|, h - 1) {
        BitCount(pair, txids, match_, h - 1, 2 * pos + 1);
      }
    }
  }

  /** The first leaf below the last node of a level. */
  function TailStart(n: nat, h: nat): nat
    requires n > 0
    ensures TailStart(n, h) < n
  {
    WidthPositive(n, h);
    LeavesOfNode(n, h, Width(n, h) - 1);
    First(h, Width(n, h) - 1)
  }

  /** No last node over an odd level, up to height h, has a match below it. */
  predicate NoOddTailMatched(match_: seq<bool>, h: nat)
    requires match_ != []
  {
    forall g :: 1 <= g <= h && Width(|match_|, g - 1) % 2 == 1 ==> !AnyMatch(match_, TailStart(|match_|, g), |match_|)
  }

  /** A single-child node is the last of its level, over an odd level. */
  lemma {:induction false} SinglesAreTails(match_: seq<bool>, h: nat, pos: nat)
    requires pos < Width(|match_|, h)
    ensures match_ != []
    ensures Singles(match_, h, pos) == 0 <==> pos + 1 < Width(|match_|, h) || NoOddTailMatched(match_, h)
    decreases h
  {
    var n := |match_|;
    LeavesOfNode(n, h, pos);
    if h > 0 {
      SinglesAreTails(match_, h - 1, 2 * pos);
      if 2 * pos + 1 < Width(n, h - 1) {
        SinglesAreTails(match_, h - 1, 2 * pos + 1);
      }
      if pos + 1 == Width(n, h) {
        TailsNest(match_, h);
        LastMeetsFirst(n, h, pos);
        assert ParentOfMatch(match_, h, pos) <==> AnyMatch(match_, TailStart(n, h), n);
        assert NoOddTailMatched(match_, h) <==>
          NoOddTailMatched(match_, h - 1) && (Width(n, h - 1) % 2 == 1 ==> !AnyMatch(match_, TailStart(n, h), n));
      }
    }
  }

  /** Where the last node of a level has no match below it, no lower last node has. */
  lemma {:induction false} TailsNest(match_: seq<bool>, h: nat)
    requires match_ != []
    ensures forall g :: 0 <= g <= h ==> TailStart(|match_|, g) >= TailStart(|match_|, h)
  {
    if h > 0 {
      TailsNest(match_, h - 1);
      var n := |match_|;
      var pos := Width(n, h) - 1;
      WidthPositive(n, h);
      if 2 * pos + 1 < Width(n, h - 1) {
        LeavesSplit(n, h, pos);
        LeavesOfNode(n, h - 1, 2 * pos);
      }
    }
  }

  /**
   The documentation bounds the flag bits by twice the number N of hashes, less one. The
   encoding meets that exactly when no last node over an odd level has a match below it;
   each level above such a node may add one bit.
   */
  lemma BitsWithinBound(pair: Pair, txids: seq<Hash>, match_: seq<bool>)
    requires |match_| == |txids| > 0
    ensures Width(|txids|, Height(|txids|)) == 1
    ensures var t := Build(pair, txids, match_, Height(|txids|), 0);
      |t.bits| <= 2 * |t.hashes| - 1 <==> NoOddTailMatched(match_, Height(|txids|))
  {
    RootExists(|txids|);
    BitCount(pair, txids, match_, Height(|txids|), 0);
    SinglesAreTails(match_, Height(|txids|), 0);
  }

  /** Three transactions of which the last is selected: two hashes, but four bits. */
  lemma BitBoundExceeded(pair: Pair, a: Hash, b: Hash, c: Hash)
    ensures Height(3) == 2
    ensures Build(pair, [a, b, c], [false, false, true], 2, 0)
      == Stream([true, false, true, true], [pair(a, b), c])
  {
    var txids, match_ := [a, b, c], [false, false, true];
    assert Width(3, 1) == 2 && Width(3, 2) == 1;
    assert HeightFrom(3, 1) == 2;
    assert First(1, 0) == 0 && Last(3, 1, 0) == 2 && First(1, 1) == 2 && Last(3, 1, 1) == 3;
    assert match_[2];
    assert ParentOfMatch(match_, 2, 0) && !ParentOfMatch(match_, 1, 0) && ParentOfMatch(match_, 1, 1) &&
      ParentOfMatch(match_, 0, 2);
    assert Build(pair, txids, match_, 0, 2) == Stream([true], [c]);
    assert Build(pair, txids, match_, 1, 1) == Stream([true, true], [c]);
    assert CalcHash(pair, txids, 1, 0) == pair(a, b);
    assert Build(pair, txids, match_, 1, 0) == Stream([false], [pair(a, b)]);
  }

  // ---- round trip

  /** The flag bits as they come back from bytes: padded, by fewer than eight bits. */
  ghost predicate PaddedTo(bits: seq<bool>, padded: seq<bool>) {
    |bits| <= |padded| && padded[..|bits|] == bits && (|bits| + 7) / 8 == (|padded| + 7) / 8
  }

  /** Extracting from a built tree yields its root and its selection, and nothing else. */
  lemma RoundTrip(pair: Pair, txids: seq<Hash>, match_: seq<bool>, padded: seq<bool>)
    requires |match_| == |txids| && 0 < |txids| <= MAX_TRANSACTIONS
    requires Width(|txids|, Height(|txids|)) == 1
    requires PaddedTo(Build(pair, txids, match_, Height(|txids|), 0).bits, padded)
    ensures var t := Build(pair, txids, match_, Height(|txids|), 0);
      Extract(pair, |txids|, Stream(padded, t.hashes), false)
        == Extracted(Root(pair, txids), Matched(txids, match_, 0, |txids|), true)
  {
    var n, h := |txids|, Height(|txids|);
    var t := Build(pair, txids, match_, h, 0);
    var s := Stream(padded, t.hashes);
    HashesFit(pair, txids, match_, h, 0);
    LeavesOfNode(n, h, 0);
    assert Contains(s, 0, 0, t);
    TraverseBuilt(pair, txids, match_, h, 0, s, 0, 0, t);
    FirstFormula(h, 0);
    LastMeetsFirst(n, h, 0);
  }

  // ---- authentication

  ghost predicate Injective(pair: Pair) {
    forall a, b, c, d :: pair(a, b) == pair(c, d) ==> a == c && b == d
  }

  /** The listed leaves, at increasing positions from lo to hi, are the matches. */
  ghost predicate Selects(txids: seq<Hash>, matches: seq<Hash>, at: seq<nat>, lo: nat, hi: nat) {
    && |matches| == |at|
    && (forall i :: 0 <= i < |at| ==> lo <= at[i] < hi && at[i] < |txids| && matches[i] == txids[at[i]])
    && (forall i, j :: 0 <= i < j < |at| ==> at[i] < at[j])
  }

  lemma SelectsJoin(txids: seq<Hash>, a: seq<Hash>, p: seq<nat>, b: seq<Hash>, q: seq<nat>, lo: nat, mid: nat, hi: nat)
    requires lo <= mid <= hi && Selects(txids, a, p, lo, mid) && Selects(txids, b, q, mid, hi)
    ensures Selects(txids, a + b, p + q, lo, hi)
  {
  }

  /** A node's stored or recomputed hash fits the block only if its children's do. */
  lemma ChildrenFit(pair: Pair, txids: seq<Hash>, s: Stream, h: nat, pos: nat, b: nat, k: nat, left: Step)
    requires Injective(pair) && h > 0 && pos < Width(|txids|, h) && b < |s.bits| && s.bits[b]
    requires left == Traverse(pair, |txids|, s, h - 1, 2 * pos, b + 1, k)
    requires Fits(pair, txids, h, pos, Traverse(pair, |txids|, s, h, pos, b, k))
    ensures Fits(pair, txids, h - 1, 2 * pos, left)
    ensures 2 * pos + 1 < Width(|txids|, h - 1) ==>
      Fits(pair, txids, h - 1, 2 * pos + 1,
        Traverse(pair, |txids|, s, h - 1, 2 * pos + 1, left.bitsUsed, left.hashesUsed))
  {
  }

  ghost predicate Fits(pair: Pair, txids: seq<Hash>, h: nat, pos: nat, r: Step) {
    pos < Width(|txids|, h) && !r.bad && r.hash == CalcHash(pair, txids, h, pos)
  }

  /** A subtree that was read without fault and hashes to the block's node selects its leaves. */
  lemma {:induction false} SubtreeAuthentic(pair: Pair, txids: seq<Hash>, s: Stream, h: nat, pos: nat, b: nat, k: nat)
    returns (at: seq<nat>)
    requires Injective(pair) && pos < Width(|txids|, h)
    requires Fits(pair, txids, h, pos, Traverse(pair, |txids|, s, h, pos, b, k))
    ensures Selects(txids, Traverse(pair, |txids|, s, h, pos, b, k).matches, at, First(h, pos), Last(|txids|, h, pos))
    decreases h
  {
    var n := |txids|;
    at := [];
    if h == 0 {
      at := if s.bits[b] then [pos] else [];
    } else if s.bits[b] {
      LeavesSplit(n, h, pos);
      LeavesOfNode(n, h - 1, 2 * pos);
      var left := Traverse(pair, n, s, h - 1, 2 * pos, b + 1, k);
      ChildrenFit(pair, txids, s, h, pos, b, k, left);
      if 2 * pos + 1 < Width(n, h - 1) {
        LeavesOfNode(n, h - 1, 2 * pos + 1);
        var right := Traverse(pair, n, s, h - 1, 2 * pos + 1, left.bitsUsed, left.hashesUsed);
        var p := SubtreeAuthentic(pair, txids, s, h - 1, 2 * pos, b + 1, k);
        var q := SubtreeAuthentic(pair, txids, s, h - 1, 2 * pos + 1, left.bitsUsed, left.hashesUsed);
        SelectsJoin(txids, left.matches, p, right.matches, q, First(h, pos), Last(n, h - 1, 2 * pos), Last(n, h, pos));
        at := p + q;
      } else {
        at := SubtreeAuthentic(pair, txids, s, h - 1, 2 * pos, b + 1, k);
      }
    }
  }

  /**
   Whatever bits and hashes a peer sends: when extraction accepts them and the root is the
   block's, the reported matches are transactions of the block, in block order, none twice.
   */
  lemma Authentic(pair: Pair, txids: seq<Hash>, s: Stream, wasBad: bool)
    requires Injective(pair) && txids != []
    requires var e := Extract(pair, |txids|, s, wasBad); e.ok && e.root == Root(pair, txids)
    ensures exists at :: Selects(txids, Extract(pair, |txids|, s, wasBad).matches, at, 0, |txids|)
  {
    var n, h := |txids|, Height(|txids|);
    RootExists(n);
    FirstFormula(h, 0);
    LastMeetsFirst(n, h, 0);
    var at := SubtreeAuthentic(pair, txids, s, h, 0, 0, 0);
  }
}
