/**
 Merkle trees and their partial encoding: node hashes, the depth-first stream of flag
 bits and hashes that selects some leaves, and the traversal that reads it back.
 */
module MerkleModel {
  import opened Powers

  type Hash = nat
  type Pair = (Hash, Hash) -> Hash
  const ZERO: Hash := 0

  /** The number of nodes at height h over n leaves: half the level below, rounded up. */
  function Width(n: nat, h: nat): nat {
    if h == 0 then n else (Width(n, h - 1) + 1) / 2
  }

  /** w is n divided by p, rounded up. */
  ghost predicate IsCeil(w: int, n: int, p: int) { (w - 1) * p < n <= w * p }

  lemma CeilIsUnique(v: int, w: int, n: int, p: int)
    requires p > 0 && IsCeil(v, n, p) && IsCeil(w, n, p)
    ensures v == w
  {
    if v < w {
      assert v * p <= (w - 1) * p by { MulMonotone(v, w - 1, p); }
    } else if w < v {
      assert w * p <= (v - 1) * p by { MulMonotone(w, v - 1, p); }
    }
  }

  lemma CeilHalves(w: int, n: int, p: int)
    requires p > 0 && IsCeil(w, n, p)
    ensures IsCeil((w + 1) / 2, n, 2 * p)
  {
    var r := (w + 1) / 2;
    MulMonotone(w, 2 * r, p);
    MulMonotone(2 * (r - 1), w - 1, p);
    assert (2 * r) * p == r * (2 * p);
    assert (2 * (r - 1)) * p == (r - 1) * (2 * p);
  }

  lemma {:induction false} WidthIsCeil(n: nat, h: nat)
    ensures IsCeil(Width(n, h), n, Pow(2, h))
  {
    if h > 0 {
      WidthIsCeil(n, h - 1);
      CeilHalves(Width(n, h - 1), n, Pow(2, h - 1));
    }
  }

  lemma DivIsCeil(n: nat, p: nat)
    requires p > 0
    ensures IsCeil((n + p - 1) / p, n, p)
  {
    var w := (n + p - 1) / p;
    var r: int := (n + p - 1) % p;
    assert n + p - 1 == w * p + r;
    assert (w - 1) * p == w * p - p;
  }

  /** The width in closed form. */
  lemma WidthFormula(n: nat, h: nat)
    ensures Width(n, h) == (n + Pow(2, h) - 1) / Pow(2, h)
  {
    WidthIsCeil(n, h);
    DivIsCeil(n, Pow(2, h));
    CeilIsUnique(Width(n, h), (n + Pow(2, h) - 1) / Pow(2, h), n, Pow(2, h));
  }

  /** The least height at which the level is a single node, counting from h. */
  function HeightFrom(n: nat, h: nat): (r: nat)
    ensures r >= h && Width(n, r) <= 1
    ensures forall k :: h <= k < r ==> Width(n, k) > 1
    decreases Width(n, h)
  {
    if Width(n, h) > 1 then
      HeightFrom(n, h + 1)
    else h
  }

  function Height(n: nat): nat { HeightFrom(n, 0) }

  lemma {:induction false} WidthPositive(n: nat, h: nat)
    requires n > 0
    ensures Width(n, h) > 0
  {
    if h > 0 {
      WidthPositive(n, h - 1);
    }
  }

  lemma RootExists(n: nat)
    requires n > 0
    ensures Width(n, Height(n)) == 1
  {
    WidthPositive(n, Height(n));
  }

  /** The hash of the node at height h and position pos over the given leaves. */
  function CalcHash(pair: Pair, txids: seq<Hash>, h: nat, pos: nat): Hash
    requires pos < Width(|txids|, h)
    decreases h
  {
    if h == 0 then
      txids[pos]
    else
      var left := CalcHash(pair, txids, h - 1, 2 * pos);
      var right := if 2 * pos + 1 < Width(|txids|, h - 1) then CalcHash(pair, txids, h - 1, 2 * pos + 1) else left;
      pair(left, right)
  }

  function Root(pair: Pair, txids: seq<Hash>): Hash
    requires txids != []
  {
    RootExists(|txids|);
    CalcHash(pair, txids, Height(|txids|), 0)
  }

  // ---- leaves below a node

  /** The first leaf below a node. */
  function First(h: nat, pos: nat): nat {
    if h == 0 then pos else First(h - 1, 2 * pos)
  }

  /** The end of the leaves below a node. */
  function Last(n: nat, h: nat, pos: nat): nat
    requires pos < Width(n, h)
  {
    if h == 0 then pos + 1
    else if 2 * pos + 1 < Width(n, h - 1) then Last(n, h - 1, 2 * pos + 1)
    else Last(n, h - 1, 2 * pos)
  }

  lemma {:induction false} FirstFormula(h: nat, pos: nat)
    ensures First(h, pos) == pos * Pow(2, h)
  {
    if h > 0 {
      FirstFormula(h - 1, 2 * pos);
      MulAssociates(pos, 2, Pow(2, h - 1));
    }
  }

  /** Neighbours: one node's leaves end where the next one's begin, the last one's at n. */
  lemma {:induction false} LastMeetsFirst(n: nat, h: nat, pos: nat)
    requires pos < Width(n, h)
    ensures Last(n, h, pos) == if pos + 1 < Width(n, h) then First(h, pos + 1) else n
  {
    if h > 0 {
      LastMeetsFirst(n, h - 1, if 2 * pos + 1 < Width(n, h - 1) then 2 * pos + 1 else 2 * pos);
    }
  }

  /** Every node has leaves. */
  lemma {:induction false} LeavesOfNode(n: nat, h: nat, pos: nat)
    requires pos < Width(n, h)
    ensures First(h, pos) < Last(n, h, pos) <= n
  {
    if h > 0 {
      LeavesOfNode(n, h - 1, 2 * pos);
      if 2 * pos + 1 < Width(n, h - 1) {
        LeavesOfNode(n, h - 1, 2 * pos + 1);
        LastMeetsFirst(n, h - 1, 2 * pos);
      }
    }
  }

  /** The leaves of a node are those of its children, in order. */
  lemma LeavesSplit(n: nat, h: nat, pos: nat)
    requires h > 0 && pos < Width(n, h)
    ensures First(h, pos) == First(h - 1, 2 * pos)
    ensures 2 * pos + 1 < Width(n, h - 1) ==>
      Last(n, h - 1, 2 * pos) == First(h - 1, 2 * pos + 1) && Last(n, h, pos) == Last(n, h - 1, 2 * pos + 1)
    ensures 2 * pos + 1 >= Width(n, h - 1) ==> Last(n, h, pos) == Last(n, h - 1, 2 * pos)
  {
    LastMeetsFirst(n, h - 1, 2 * pos);
  }

  predicate AnyMatch(match_: seq<bool>, lo: nat, hi: nat)
    requires lo <= hi <= |match_|
  {
    exists p :: lo <= p < hi && match_[p]
  }

  /** The matched leaves from lo to hi, in order. */
  function Matched(txids: seq<Hash>, match_: seq<bool>, lo: nat, hi: nat): seq<Hash>
    requires lo <= hi <= |txids| == |match_|
    decreases hi
  {
    if lo == hi then [] else
    Matched(txids, match_, lo, hi - 1) + if match_[hi - 1] then [txids[hi - 1]] else []
  }

  lemma {:induction false} MatchedSplit(txids: seq<Hash>, match_: seq<bool>, lo: nat, mid: nat, hi: nat)
    requires lo <= mid <= hi <= |txids| == |match_|
    ensures Matched(txids, match_, lo, hi) == Matched(txids, match_, lo, mid) + Matched(txids, match_, mid, hi)
    decreases hi
  {
    if mid < hi {
      MatchedSplit(txids, match_, lo, mid, hi - 1);
    }
  }

  lemma {:induction false} NoneMatched(txids: seq<Hash>, match_: seq<bool>, lo: nat, hi: nat)
    requires lo <= hi <= |txids| == |match_|
    ensures AnyMatch(match_, lo, hi) <==> Matched(txids, match_, lo, hi) != []
    decreases hi
  {
    if lo < hi {
      NoneMatched(txids, match_, lo, hi - 1);
      assert AnyMatch(match_, lo, hi) <==> AnyMatch(match_, lo, hi - 1) || match_[hi - 1];
    }
  }
}
