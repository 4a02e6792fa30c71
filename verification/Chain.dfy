/**
 The block index as linked objects: ancestors by walking back one block at a time, the
 skip pointers that jump further, and the active chain as the list of a tip's ancestors.
 */
module Chain {
  // ---- skip heights

  /** n with its lowest one bit cleared. */
  function InvertLowestOne(n: nat): (r: nat)
    ensures r <= n && (n > 0 ==> r < n)
  {
    if n == 0 then 0 else if n % 2 == 1 then n - 1 else 2 * InvertLowestOne(n / 2)
  }

  function And(a: nat, b: nat): nat {
    if a == 0 || b == 0 then 0 else (if a % 2 == 1 && b % 2 == 1 then 1 else 0) + 2 * And(a / 2, b / 2)
  }

  lemma {:induction false} AndSame(a: nat)
    ensures And(a, a) == a
  {
    if a > 0 {
      AndSame(a / 2);
    }
  }

  /** The bit trick does clear the lowest one. */
  lemma {:induction false} InvertIsAnd(n: nat)
    requires n > 0
    ensures And(n, n - 1) == InvertLowestOne(n)
  {
    if n % 2 == 1 {
      AndSame(n / 2);
    } else {
      InvertIsAnd(n / 2);
      assert (n - 1) / 2 == n / 2 - 1;
    }
  }

  /** The height to jump back to; always lower, so that following it makes progress. */
  function SkipHeight(height: nat): (r: nat)
    ensures height > 0 ==> r < height
  {
    if height < 2 then 0
    else if height % 2 == 1 then InvertLowestOne(InvertLowestOne(height - 1)) + 1
    else InvertLowestOne(height)
  }

  // ---- blocks

  class Block {
    const pprev: Block?
    const nHeight: nat
    var pskip: Block?

    constructor (prev: Block?)
      requires prev != null ==> Linked(prev)
      ensures pprev == prev && Linked(this) && pskip == null
    {
      pprev, pskip := prev, null;
      nHeight := if prev == null then 0 else prev.nHeight + 1;
    }
  }

  /** Heights count the blocks down to a first one. */
  ghost predicate Linked(b: Block)
    decreases b.nHeight
  {
    if b.pprev == null then b.nHeight == 0
    else b.nHeight == b.pprev.nHeight + 1 && Linked(b.pprev)
  }

  /** The ancestor at a height, one step at a time. */
  ghost function Ancestor(b: Block, h: nat): (a: Block)
    requires Linked(b) && h <= b.nHeight
    ensures Linked(a) && a.nHeight == h
    decreases b.nHeight
  {
    if b.nHeight == h then b else Ancestor(b.pprev, h)
  }

  lemma {:induction false} AncestorOfAncestor(b: Block, h: nat, k: nat)
    requires Linked(b) && k <= h <= b.nHeight
    ensures Ancestor(Ancestor(b, h), k) == Ancestor(b, k)
    decreases b.nHeight
  {
    if h < b.nHeight {
      AncestorOfAncestor(b.pprev, h, k);
    }
  }

  ghost predicate IsAncestor(a: Block, b: Block) {
    Linked(b) && a.nHeight <= b.nHeight && a == Ancestor(b, a.nHeight)
  }

  /** The index: closed under predecessors, and every skip pointer where BuildSkip puts it. */
  ghost predicate Valid(index: set<Block>)
    reads index
  {
    forall b :: b in index ==>
      && Linked(b)
      && (b.pprev != null ==> b.pprev in index && b.pskip == Ancestor(b, SkipHeight(b.nHeight)))
  }

  lemma {:induction false} AncestorIn(index: set<Block>, b: Block, h: nat)
    requires Valid(index) && b in index && h <= b.nHeight
    ensures Ancestor(b, h) in index
    decreases b.nHeight
  {
    if h < b.nHeight {
      AncestorIn(index, b.pprev, h);
    }
  }

  /** The skip pointer and the predecessor of an ancestor are ancestors too. */
  lemma AncestorSteps(index: set<Block>, b: Block, h: nat, walk: Block)
    requires Valid(index) && b in index && 0 < h <= b.nHeight && walk == Ancestor(b, h) && walk in index
    ensures walk.pprev != null && walk.pprev in index && walk.pprev == Ancestor(b, h - 1)
    ensures walk.pskip == Ancestor(b, SkipHeight(h)) && walk.pskip in index
  {
    AncestorOfAncestor(b, h, h - 1);
    AncestorOfAncestor(b, h, SkipHeight(h));
    AncestorIn(index, walk, SkipHeight(h));
  }

  /** GetAncestor follows skip pointers where they help and finds the same block. */
  method GetAncestor(b: Block, height: int, ghost index: set<Block>) returns (r: Block?)
    requires Valid(index) && b in index
    ensures r == if 0 <= height <= b.nHeight then Ancestor(b, height) else null
    ensures r != null ==> r in index
  {
    if height > b.nHeight || height < 0 {
      return null;
    }
    var walk, heightWalk := b, b.nHeight;
    while heightWalk > height
      invariant height <= heightWalk <= b.nHeight && walk in index && walk == Ancestor(b, heightWalk)
    {
      var skip, skipPrev := SkipHeight(heightWalk), SkipHeight(heightWalk - 1);
      AncestorSteps(index, b, heightWalk, walk);
      if skip == height || (skip > height && !(skipPrev < skip - 2 && skipPrev >= height)) {
        walk, heightWalk := walk.pskip, skip;
      } else {
        walk, heightWalk := walk.pprev, heightWalk - 1;
      }
    }
    r := walk;
  }

  /** A new block joins the index once its skip pointer is built. */
  method BuildSkip(b: Block, ghost index: set<Block>)
    requires Valid(index) && b !in index && Linked(b) && (b.pprev != null ==> b.pprev in index)
    modifies b
    ensures Valid(index + {b}) && (b.pprev == null ==> b.pskip == old(b.pskip))
  {
    if b.pprev != null {
      b.pskip := GetAncestor(b.pprev, SkipHeight(b.nHeight), index);
    }
  }

  /** The last block that both a and b descend from (or are); null if there is none. */
  ghost predicate IsLastCommon(r: Block?, a: Block, b: Block) {
    && Linked(a) && Linked(b)
    && (r != null ==> IsAncestor(r, a) && IsAncestor(r, b))
    && forall h: nat {:trigger Ancestor(a, h)} ::
         h <= a.nHeight && h <= b.nHeight && Ancestor(a, h) == Ancestor(b, h) ==> r != null && h <= r.nHeight
  }

  lemma {:induction false} MeetStaysMet(a: Block, b: Block, h: nat, k: nat)
    requires Linked(a) && Linked(b) && k <= h <= a.nHeight && h <= b.nHeight && Ancestor(a, h) == Ancestor(b, h)
    ensures Ancestor(a, k) == Ancestor(b, k)
  {
    AncestorOfAncestor(a, h, k);
    AncestorOfAncestor(b, h, k);
  }

  /** Walking back from equal heights: nothing above the present height is common. */
  ghost predicate NoneAbove(a: Block, b: Block, height: int) {
    && Linked(a) && Linked(b)
    && forall h: nat {:trigger Ancestor(a, h)} ::
         height < h <= a.nHeight && h <= b.nHeight ==> Ancestor(a, h) != Ancestor(b, h)
  }

  /** p is where a walk back from b has come to at height h; -1 is past the first block. */
  ghost predicate WalkAt(b: Block, h: int, p: Block?) {
    Linked(b) && -1 <= h <= b.nHeight && p == if h == -1 then null else Ancestor(b, h)
  }

  lemma WalkNext(b: Block, h: int, p: Block)
    requires WalkAt(b, h, p)
    ensures h >= 0 && p.nHeight == h && WalkAt(b, h - 1, p.pprev)
  {
    if h > 0 {
      AncestorOfAncestor(b, h, h - 1);
    }
  }

  lemma NoneAboveNext(a: Block, b: Block, h: int, p: Block, q: Block)
    requires NoneAbove(a, b, h) && WalkAt(a, h, p) && WalkAt(b, h, q) && p != q
    ensures NoneAbove(a, b, h - 1)
  {
  }

  /** Where the walks meet, or run out together, is the last common ancestor. */
  lemma MeetIsLast(a: Block, b: Block, h: int, p: Block?)
    requires NoneAbove(a, b, h) && WalkAt(a, h, p) && WalkAt(b, h, p)
    ensures IsLastCommon(p, a, b)
  {
  }

  method LastCommonAncestor(a: Block, b: Block, ghost index: set<Block>) returns (r: Block?)
    requires Valid(index) && a in index && b in index
    ensures IsLastCommon(r, a, b)
  {
    var pa: Block?, pb: Block? := a, b;
    if a.nHeight > b.nHeight {
      pa := GetAncestor(a, b.nHeight, index);
    } else if b.nHeight > a.nHeight {
      pb := GetAncestor(b, a.nHeight, index);
    }
    ghost var h: int := pa.nHeight;
    while pa != pb && pa != null && pb != null
      invariant WalkAt(a, h, pa) && WalkAt(b, h, pb) && NoneAbove(a, b, h)
      decreases h
    {
      NoneAboveNext(a, b, h, pa, pb);
      WalkNext(a, h, pa);
      WalkNext(b, h, pb);
      pa, pb, h := pa.pprev, pb.pprev, h - 1;
    }
    assert pa == pb;
    MeetIsLast(a, b, h, pa);
    r := pa;
  }

  // ---- the active chain

  /** The ancestors of a tip, from the first block up. */
  ghost function ChainOf(tip: Block): seq<Block?>
    requires Linked(tip)
  {
    seq(tip.nHeight + 1, h requires 0 <= h <= tip.nHeight => Ancestor(tip, h))
  }

  class ActiveChain {
    var vChain: seq<Block?>

    /** The list is some tip's ancestors, or empty. */
    ghost predicate Consistent(index: set<Block>)
      reads this
    {
      vChain != [] ==>
        var tip := vChain[|vChain| - 1];
        tip != null && tip in index && Linked(tip) && vChain == ChainOf(tip)
    }

    constructor ()
      ensures vChain == [] && Consistent({})
    {
      vChain := [];
    }

    method Height() returns (h: int)
      ensures h == |vChain| - 1
    {
      h := |vChain| - 1;
    }

    method At(nHeight: int) returns (b: Block?)
      ensures b == if 0 <= nHeight < |vChain| then vChain[nHeight] else null
    {
      if nHeight < 0 || nHeight >= |vChain| {
        return null;
      }
      b := vChain[nHeight];
    }

    /** A block is on the chain exactly when the tip descends from it. */
    method Contains(b: Block, ghost index: set<Block>) returns (r: bool)
      requires Consistent(index)
      ensures r <==> vChain != [] && IsAncestor(b, vChain[|vChain| - 1])
    {
      var at := At(b.nHeight);
      r := at == b;
    }

    /** The block after b on the chain, if b is on it and is not the tip. */
    method Next(b: Block, ghost index: set<Block>) returns (r: Block?)
      requires Consistent(index)
      ensures r != null <==> vChain != [] && b != vChain[|vChain| - 1] && IsAncestor(b, vChain[|vChain| - 1])
      ensures r != null ==> r.pprev == b && IsAncestor(r, vChain[|vChain| - 1])
    {
      var c := Contains(b, index);
      if !c {
        return null;
      }
      r := At(b.nHeight + 1);
      if r != null {
        AncestorOfAncestor(vChain[|vChain| - 1], r.nHeight, b.nHeight);
      }
    }

    /** Rewrites the list down from a new tip, stopping where the old chain is met. */
    method SetTip(pindex: Block?, ghost index: set<Block>)
      requires Consistent(index) && Valid(index) && (pindex != null ==> pindex in index)
      modifies this
      ensures vChain == if pindex == null then [] else ChainOf(pindex)
      ensures Consistent(index)
    {
      if pindex == null {
        vChain := [];
        return;
      }
      var was := vChain;
      vChain := seq(pindex.nHeight + 1, h requires 0 <= h <= pindex.nHeight => if h < |was| then was[h] else null);
      var p: Block? := pindex;
      ghost var h: int := pindex.nHeight;
      while p != null && vChain[p.nHeight] != p
        invariant WalkAt(pindex, h, p) && Rewritten(pindex, was, vChain, h)
        decreases h
      {
        WalkNext(pindex, h, p);
        RewriteNext(pindex, was, vChain, h, p);
        vChain := vChain[p.nHeight := p];
        p, h := p.pprev, h - 1;
      }
      RewriteEnds(pindex, was, vChain, h);
    }

    /** Walks back from p, an ancestor of b no higher than the chain, to the chain. */
    method WalkToChain(ghost b: Block, p: Block, ghost index: set<Block>) returns (r: Block?)
      requires vChain != [] && Consistent(index) && p.nHeight < |vChain| && WalkAt(b, p.nHeight, p)
      requires NoneAbove(b, vChain[|vChain| - 1], p.nHeight)
      ensures IsLastCommon(r, b, vChain[|vChain| - 1])
    {
      r := p;
      ghost var tip := vChain[|vChain| - 1];
      ghost var h: int := p.nHeight;
      while r != null
        invariant h <= tip.nHeight && WalkAt(b, h, r) && NoneAbove(b, tip, h)
        decreases h
      {
        var c := Contains(r, index);
        if c {
          MeetIsLast(b, tip, h, r);
          return;
        }
        NoneAboveNext(b, tip, h, r, Ancestor(tip, h));
        WalkNext(b, h, r);
        r, h := r.pprev, h - 1;
      }
      MeetIsLast(b, tip, h, r);
    }

    /** The highest block that b and the chain share. */
    method FindFork(b: Block?, ghost index: set<Block>) returns (r: Block?)
      requires Consistent(index) && Valid(index) && (b != null ==> b in index)
      ensures b == null || vChain == [] ==> r == null
      ensures b != null && vChain != [] ==> IsLastCommon(r, b, vChain[|vChain| - 1])
    {
      if b == null {
        return null;
      }
      r := b;
      var height := Height();
      if b.nHeight > height {
        r := GetAncestor(b, height, index);
      }
      if r != null {
        assert NoneAbove(b, vChain[|vChain| - 1], r.nHeight);
        r := WalkToChain(b, r, index);
      }
    }

    /** The ancestor at a height, by the chain's list where that holds p, else by skipping. */
    method StepBack(p: Block, h: nat, ghost index: set<Block>) returns (r: Block)
      requires Consistent(index) && Valid(index) && p in index && Linked(p) && h <= p.nHeight
      ensures r == Ancestor(p, h) && r in index
    {
      AncestorIn(index, p, h);
      var c := Contains(p, index);
      if c {
        AncestorOfAncestor(vChain[|vChain| - 1], p.nHeight, h);
        r := At(h);
      } else {
        r := GetAncestor(p, h, index);
      }
    }

    /** From b, or the tip, back to the first block in steps that start doubling after ten entries. */
    method GetLocator(b: Block?, ghost index: set<Block>) returns (r: seq<Block>)
      requires Consistent(index) && Valid(index) && (b != null ==> b in index)
      ensures b == null && vChain == [] ==> r == []
      ensures b != null ==> IsLocator(r, b)
      ensures b == null && vChain != [] ==> IsLocator(r, vChain[|vChain| - 1])
    {
      r := [];
      var start := b;
      if start == null {
        start := At(|vChain| - 1);
      }
      if start != null {
        r := LocatorFrom(start, index);
      }
    }

    method LocatorFrom(start: Block, ghost index: set<Block>) returns (r: seq<Block>)
      requires Consistent(index) && Valid(index) && start in index
      ensures IsLocator(r, start)
    {
      r := [];
      var p, step := start, 1;
      while p.nHeight > 0
        invariant p in index && step > 0 && LocatorSoFar(r, start, p, step)
        decreases p.nHeight
      {
        var h := if p.nHeight > step then p.nHeight - step else 0;
        var q := StepBack(p, h, index);
        ghost var next := if |r| + 1 > 10 then step * 2 else step;
        LocatorNext(r, start, p, step, q, next);
        r := r + [p];
        p := q;
        if |r| > 10 {
          step := step * 2;
        }
      }
      LocatorEnds(r, start, p, step);
      r := r + [p];
    }
  }

  /** The entries so far, and the heights still to come from p. */
  ghost predicate LocatorSoFar(r: seq<Block>, start: Block, p: Block, step: nat) {
    && step > 0 && IsAncestor(p, start) && (forall i :: 0 <= i < |r| ==> IsAncestor(r[i], start))
    && LocatorHeights(start.nHeight, 1, 0) == Heights(r) + LocatorHeights(p.nHeight, step, |r|)
  }

  lemma LocatorNext(r: seq<Block>, start: Block, p: Block, step: nat, q: Block, next: nat)
    requires LocatorSoFar(r, start, p, step) && p.nHeight > 0 && Linked(p)
    requires q == Ancestor(p, if p.nHeight > step then p.nHeight - step else 0)
    requires next == if |r| + 1 > 10 then step * 2 else step
    ensures LocatorSoFar(r + [p], start, q, next)
  {
    AncestorOfAncestor(start, p.nHeight, q.nHeight);
    var rest := LocatorHeights(q.nHeight, next, |r| + 1);
    assert LocatorHeights(p.nHeight, step, |r|) == [p.nHeight] + rest;
    assert Heights(r + [p]) == Heights(r) + [p.nHeight];
    assert Heights(r) + ([p.nHeight] + rest) == Heights(r) + [p.nHeight] + rest;
  }

  lemma LocatorEnds(r: seq<Block>, start: Block, p: Block, step: nat)
    requires LocatorSoFar(r, start, p, step) && p.nHeight == 0
    ensures IsLocator(r + [p], start)
  {
    assert LocatorHeights(p.nHeight, step, |r|) == [0];
    assert Heights(r + [p]) == Heights(r) + [0];
  }

  function Heights(r: seq<Block>): seq<nat> {
    seq(|r|, i requires 0 <= i < |r| => r[i].nHeight)
  }

  /** The heights of a locator's entries, given the step and the number of entries before. */
  function LocatorHeights(h: nat, step: nat, count: nat): seq<nat>
    requires step > 0
  {
    if h == 0 then [h] else
    var next := if count + 1 > 10 then step * 2 else step;
    [h] + LocatorHeights(if h > step then h - step else 0, next, count + 1)
  }

  ghost predicate IsLocator(r: seq<Block>, start: Block) {
    Heights(r) == LocatorHeights(start.nHeight, 1, 0) && forall i :: 0 <= i < |r| ==> IsAncestor(r[i], start)
  }

  /** The list above height h follows pindex, below it is as it was. */
  ghost predicate Rewritten(pindex: Block, was: seq<Block?>, now: seq<Block?>, h: int) {
    && Linked(pindex) && -1 <= h <= pindex.nHeight && |now| == pindex.nHeight + 1
    && (forall k :: h < k <= pindex.nHeight ==> now[k] == Ancestor(pindex, k))
    && (forall k :: 0 <= k <= h ==> now[k] == if k < |was| then was[k] else null)
  }

  lemma RewriteNext(pindex: Block, was: seq<Block?>, now: seq<Block?>, h: nat, p: Block)
    requires Rewritten(pindex, was, now, h) && p == Ancestor(pindex, h)
    ensures Rewritten(pindex, was, now[h := p], h - 1)
  {
  }

  /** The walk ends below the first block or where the old chain is met; either way the list is the new chain. */
  lemma RewriteEnds(pindex: Block, was: seq<Block?>, now: seq<Block?>, h: int)
    requires Rewritten(pindex, was, now, h) && (h >= 0 ==> now[h] == Ancestor(pindex, h))
    requires was != [] ==> var tip := was[|was| - 1]; tip != null && Linked(tip) && was == ChainOf(tip)
    ensures now == ChainOf(pindex)
  {
    if h >= 0 {
      assert now[h] == was[h];
      RestIsShared(was, was[|was| - 1], pindex, h);
    }
  }

  /** Below a block of the old chain, old and new ancestors are the same. */
  lemma RestIsShared(was: seq<Block?>, tip: Block, pindex: Block, h: nat)
    requires Linked(tip) && was == ChainOf(tip) && Linked(pindex) && h < |was| && h <= pindex.nHeight
    requires was[h] == Ancestor(pindex, h)
    ensures forall k: nat :: k <= h ==> was[k] == Ancestor(pindex, k)
  {
    forall k: nat | k <= h
      ensures was[k] == Ancestor(pindex, k)
    {
      MeetStaysMet(tip, pindex, h, k);
    }
  }
}
