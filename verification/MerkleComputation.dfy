/**
 The constant-space computation of a Merkle root, of the flag for duplicates and of a branch:
 one kept hash for each bit of the number of leaves, and a sweep along the right edge.
 */
module MerkleComputation {
  import opened Powers
  import opened MerkleModel
  import opened MerkleRoot

  /** Bit number level of count. */
  predicate BitSet(count: nat, level: nat) { count / Pow(2, level) % 2 == 1 }

  lemma HalfOfQuotient(n: nat, p: nat)
    requires p > 0
    ensures n / (2 * p) == n / p / 2
  {
    var q := n / p;
    var r := n % p;
    assert n == q * p + r;
    var m := q / 2;
    assert q == 2 * m + q % 2;
    assert q * p == m * (2 * p) + (q % 2) * p;
    DivUnique(n, 2 * p, m, (q % 2) * p + r);
  }

  lemma {:induction false} QuotientIsComplete(n: nat, h: nat)
    ensures n / Pow(2, h) == Complete(n, h)
  {
    if h > 0 {
      QuotientIsComplete(n, h - 1);
      HalfOfQuotient(n, Pow(2, h - 1));
    }
  }

  lemma BitIsOdd(count: nat, level: nat)
    ensures BitSet(count, level) <==> Complete(count, level) % 2 == 1
  {
    QuotientIsComplete(count, level);
  }

  lemma FewLevels(n: nat, h: nat)
    requires n < 0x1_0000_0000 && Complete(n, h) > 0
    ensures h < 32
  {
    if h >= 32 {
      var k := 32;
      QuotientIsComplete(n, k);
      PowersOfTwo();
      CompleteShrinks(n, k, h);
    }
  }

  lemma {:induction false} CompleteShrinks(n: nat, k: nat, h: nat)
    requires k <= h
    ensures Complete(n, h) <= Complete(n, k)
  {
    if k < h {
      CompleteShrinks(n, k, h - 1);
    }
  }

  /** One leaf less is one complete node less exactly where it ended one. */
  lemma {:induction false} OneLess(c: nat, h: nat)
    requires c > 0
    ensures Complete(c - 1, h) == Complete(c, h) - if Width(c, h) == Complete(c, h) then 1 else 0
  {
    if h > 0 {
      OneLess(c, h - 1);
      CompleteOrOneMore(c, h - 1);
      CompleteOrOneMore(c, h);
    }
  }

  // ---- what is kept between leaves

  /** For each bit of count, the last complete node of its level, which has no neighbour yet. */
  ghost predicate Kept(pair: Pair, leaves: seq<Hash>, inner: seq<Hash>, count: nat) {
    forall l :: 0 <= l < |inner| && Complete(count, l) % 2 == 1 ==>
      inner[l] == Node(pair, leaves, l, Complete(count, l) - 1)
  }

  /** The branch of leaf p up to the level at which the kept node above it is; none if it was not met. */
  ghost predicate Tracked(pair: Pair, leaves: seq<Hash>, p: int, count: nat, matchlevel: int, branch: seq<Hash>) {
    if 0 <= p < count then
      && matchlevel >= 0 && Complete(count, matchlevel) % 2 == 1
      && Complete(p, matchlevel) == Complete(count, matchlevel) - 1
      && branch == Branch(pair, leaves, p, matchlevel)
    else matchlevel == -1 && branch == []
  }

  // ---- adding a leaf

  /** Leaf number c - 1 was carried up to this level: h is the hash of the node that it completes there. */
  ghost predicate Carried(pair: Pair, leaves: seq<Hash>, c: nat, level: nat, h: Hash) {
    && 0 < c <= |leaves| && Complete(c, level) == Width(c, level) > 0
    && h == Node(pair, leaves, level, Complete(c, level) - 1)
  }

  /** The branch on the way: complete up to this level if the node lies above leaf p, else as it was. */
  ghost predicate CarriedBranch(pair: Pair, leaves: seq<Hash>, p: int, c: nat, level: nat, matchh: bool,
                                matchlevel: int, branch: seq<Hash>)
    requires c > 0
  {
    if matchh then
      0 <= p < c && Complete(p, level) == Complete(c, level) - 1 && branch == Branch(pair, leaves, p, level)
    else p != c - 1 && Tracked(pair, leaves, p, c - 1, matchlevel, branch) && (matchlevel == -1 || matchlevel >= level)
  }

  /** The last two complete nodes of the level are the same. */
  ghost predicate EndsInTwins(pair: Pair, leaves: seq<Hash>, c: nat, l: nat) {
    Node(pair, leaves, l, Complete(c, l) - 2) == Node(pair, leaves, l, Complete(c, l) - 1)
  }

  /** Twins were met below this level. */
  ghost predicate MetTwins(pair: Pair, leaves: seq<Hash>, c: nat, level: nat) {
    exists l :: 0 <= l < level && EndsInTwins(pair, leaves, c, l)
  }

  lemma MetNext(pair: Pair, leaves: seq<Hash>, c: nat, level: nat)
    ensures MetTwins(pair, leaves, c, level + 1) <==>
      MetTwins(pair, leaves, c, level) || EndsInTwins(pair, leaves, c, level)
  {
    if MetTwins(pair, leaves, c, level + 1) && !EndsInTwins(pair, leaves, c, level) {
      var l :| 0 <= l < level + 1 && EndsInTwins(pair, leaves, c, l);
      assert l < level;
    }
  }

  /** What the leaf finds kept at a level, and where the two lead. */
  lemma CarryUp(pair: Pair, leaves: seq<Hash>, inner: seq<Hash>, c: nat, level: nat, h: Hash)
    requires Carried(pair, leaves, c, level, h) && Kept(pair, leaves, inner, c - 1) && level < |inner|
    requires Complete(c, level) % 2 == 0
    ensures inner[level] == Node(pair, leaves, level, Complete(c, level) - 2)
    ensures Carried(pair, leaves, c, level + 1, pair(inner[level], h))
  {
    var k := Complete(c, level) - 2;
    OneLess(c, level);
    CompleteMonotone(c, |leaves|, level);
    CompleteOrOneMore(c, level + 1);
    ParentOfTwo(pair, leaves, level, k);
  }

  lemma BranchCarriedUp(pair: Pair, leaves: seq<Hash>, p: int, c: nat, level: nat, matchh: bool, matchlevel: int,
                        branch: seq<Hash>, left: Hash, h: Hash)
    requires Carried(pair, leaves, c, level, h) && Complete(c, level) % 2 == 0
    requires left == Node(pair, leaves, level, Complete(c, level) - 2)
    requires CarriedBranch(pair, leaves, p, c, level, matchh, matchlevel, branch)
    ensures var newBranch := if matchh then branch + [left] else if matchlevel == level then branch + [h] else branch;
      CarriedBranch(pair, leaves, p, c, level + 1, matchh || matchlevel == level, matchlevel, newBranch)
  {
    OneLess(c, level);
    CompleteMonotone(c, |leaves|, level);
    if matchh || matchlevel == level {
      var k := Complete(p, level);
      assert k == Complete(c, level) - if matchh then 1 else 2;
    }
  }

  /** The levels above the one where the leaf is stored do not notice it; those below have nothing left. */
  lemma {:induction false} OtherLevels(c: nat, level: nat, l: nat)
    requires c > 0 && Complete(c, level) == Width(c, level) && Complete(c, level) % 2 == 1
    ensures l > level ==> Complete(c - 1, l) == Complete(c, l)
    ensures l < level ==> Complete(c, l) == Width(c, l) && Complete(c, l) % 2 == 0
    decreases if l > level then l - level else level - l
  {
    CompleteOrOneMore(c, l);
    if l > level {
      OneLess(c, l);
      CompleteOrOneMore(c, l - 1);
      OtherLevels(c, level, l - 1);
    } else if l < level {
      OtherLevels(c, level, l + 1);
      CompleteOrOneMore(c, l + 1);
    }
  }

  lemma LeafKept(pair: Pair, leaves: seq<Hash>, inner: seq<Hash>, c: nat, level: nat, h: Hash)
    requires Carried(pair, leaves, c, level, h) && Kept(pair, leaves, inner, c - 1) && level < |inner|
    requires Complete(c, level) % 2 == 1
    ensures Kept(pair, leaves, inner[level := h], c)
  {
    forall l | 0 <= l < |inner| && Complete(c, l) % 2 == 1
      ensures inner[level := h][l] == Node(pair, leaves, l, Complete(c, l) - 1)
    {
      OtherLevels(c, level, l);
    }
  }

  lemma LeafTracked(pair: Pair, leaves: seq<Hash>, p: int, c: nat, level: nat, matchh: bool, matchlevel: int,
                    branch: seq<Hash>)
    requires c > 0 && Complete(c, level) == Width(c, level) && Complete(c, level) % 2 == 1
    requires CarriedBranch(pair, leaves, p, c, level, matchh, matchlevel, branch)
    ensures Tracked(pair, leaves, p, c, if matchh then level else matchlevel, branch)
  {
    if !matchh && matchlevel != -1 {
      OneLess(c, level);
      OtherLevels(c, level, matchlevel);
    }
  }

  /** Twins among fewer leaves are twins among more. */
  lemma OldTwins(pair: Pair, leaves: seq<Hash>, c: nat)
    requires c > 0 && Mutated(pair, leaves, c - 1)
    ensures Mutated(pair, leaves, c)
  {
    var l, k :| Twins(pair, leaves, c - 1, l, k);
    OneLess(c, l);
    assert Twins(pair, leaves, c, l, k);
  }

  lemma MetAreTwins(pair: Pair, leaves: seq<Hash>, c: nat, level: nat, l: nat)
    requires c > 0 && Complete(c, level) == Width(c, level) && Complete(c, level) % 2 == 1 && l < level
    requires EndsInTwins(pair, leaves, c, l)
    ensures Mutated(pair, leaves, c)
  {
    OtherLevels(c, level, l);
    CompletePositive(c, l, level);
    assert Twins(pair, leaves, c, l, Complete(c, l) - 2);
  }

  lemma NewTwinsAreMet(pair: Pair, leaves: seq<Hash>, c: nat, level: nat, l: nat, k: nat)
    requires c > 0 && Complete(c, level) == Width(c, level) && Complete(c, level) % 2 == 1
    requires Twins(pair, leaves, c, l, k) && !Twins(pair, leaves, c - 1, l, k)
    ensures l < level && EndsInTwins(pair, leaves, c, l)
  {
    OneLess(c, l);
    OtherLevels(c, level, l);
    assert k == Complete(c, l) - 2;
  }

  lemma LeafTwins(pair: Pair, leaves: seq<Hash>, c: nat, level: nat)
    requires c > 0 && Complete(c, level) == Width(c, level) && Complete(c, level) % 2 == 1
    ensures Mutated(pair, leaves, c) <==> Mutated(pair, leaves, c - 1) || MetTwins(pair, leaves, c, level)
  {
    if Mutated(pair, leaves, c - 1) {
      OldTwins(pair, leaves, c);
    } else if Mutated(pair, leaves, c) {
      var l, k :| Twins(pair, leaves, c, l, k);
      assert !Twins(pair, leaves, c - 1, l, k);
      NewTwinsAreMet(pair, leaves, c, level, l, k);
    }
    if MetTwins(pair, leaves, c, level) {
      var l :| 0 <= l < level && EndsInTwins(pair, leaves, c, l);
      MetAreTwins(pair, leaves, c, level, l);
    }
  }

  lemma {:induction false} CompletePositive(c: nat, l: nat, h: nat)
    requires l <= h && Complete(c, h) > 0
    ensures Complete(c, l) > 0
  {
    if l < h {
      CompletePositive(c, l, h - 1);
    }
  }

  /** The bit at this level, which tells whether the complete nodes there pair up. */
  method TestBit(count: nat, level: nat) returns (r: bool)
    ensures r <==> Complete(count, level) % 2 == 1
  {
    BitIsOdd(count, level);
    r := BitSet(count, level);
  }

  /** Combines the carried hash with the one kept at its level. */
  method CarryStep(pair: Pair, leaves: seq<Hash>, c: nat, branchpos: int, left: Hash, level: nat, h0: Hash,
                   matchh0: bool, matchlevel: int, branch0: seq<Hash>)
    returns (h: Hash, matchh: bool, branch: seq<Hash>)
    requires Carried(pair, leaves, c, level, h0) && Complete(c, level) % 2 == 0
    requires CarriedBranch(pair, leaves, branchpos, c, level, matchh0, matchlevel, branch0)
    requires left == Node(pair, leaves, level, Complete(c, level) - 2)
    ensures h == pair(left, h0) && CarriedBranch(pair, leaves, branchpos, c, level + 1, matchh, matchlevel, branch)
  {
    BranchCarriedUp(pair, leaves, branchpos, c, level, matchh0, matchlevel, branch0, left, h0);
    matchh, branch := matchh0, branch0;
    if matchh {
      branch := branch + [left];
    } else if matchlevel == level {
      branch := branch + [h0];
      matchh := true;
    }
    h := pair(left, h0);
  }

  /** Carries leaf number c - 1 up past the kept hashes that it completes a pair with. */
  method Carry(pair: Pair, leaves: seq<Hash>, c: nat, branchpos: int, inner: array<Hash>, matchlevel: int,
               branch0: seq<Hash>)
    returns (twins: bool, level: nat, h: Hash, matchh: bool, branch: seq<Hash>)
    requires 0 < c <= |leaves| < 0x1_0000_0000 && inner.Length == 32 && Kept(pair, leaves, inner[..], c - 1)
    requires Tracked(pair, leaves, branchpos, c - 1, matchlevel, branch0)
    ensures Carried(pair, leaves, c, level, h) && Complete(c, level) % 2 == 1
    ensures CarriedBranch(pair, leaves, branchpos, c, level, matchh, matchlevel, branch)
    ensures twins <==> MetTwins(pair, leaves, c, level)
  {
    h, matchh, branch := leaves[c - 1], c - 1 == branchpos, branch0;
    level, twins := 0, false;
    var done := TestBit(c, level);
    while !done
      invariant Carried(pair, leaves, c, level, h) && (done <==> Complete(c, level) % 2 == 1)
      invariant CarriedBranch(pair, leaves, branchpos, c, level, matchh, matchlevel, branch)
      invariant twins <==> MetTwins(pair, leaves, c, level)
      decreases Complete(c, level)
    {
      FewLevels(c, level);
      var left := inner[level];
      MetNext(pair, leaves, c, level);
      CarryUp(pair, leaves, inner[..], c, level, h);
      twins := twins || left == h;
      h, matchh, branch := CarryStep(pair, leaves, c, branchpos, left, level, h, matchh, matchlevel, branch);
      level := level + 1;
      done := TestBit(c, level);
    }
  }

  /** Adds leaf number count: carries it up, and keeps the result at the lowest bit of the new count. */
  method AddLeaf(pair: Pair, leaves: seq<Hash>, count: nat, branchpos: int, inner: array<Hash>, wasMutated: bool,
                 matchlevel: int, branch: seq<Hash>)
    returns (mutated: bool, newLevel: int, newBranch: seq<Hash>)
    requires count < |leaves| < 0x1_0000_0000 && inner.Length == 32
    requires Kept(pair, leaves, inner[..], count) && (wasMutated <==> Mutated(pair, leaves, count))
    requires Tracked(pair, leaves, branchpos, count, matchlevel, branch)
    modifies inner
    ensures Kept(pair, leaves, inner[..], count + 1) && (mutated <==> Mutated(pair, leaves, count + 1))
    ensures Tracked(pair, leaves, branchpos, count + 1, newLevel, newBranch)
  {
    var c := count + 1;
    var twins, level, h, matchh;
    twins, level, h, matchh, newBranch := Carry(pair, leaves, c, branchpos, inner, matchlevel, branch);
    FewLevels(c, level);
    LeafKept(pair, leaves, inner[..], c, level, h);
    LeafTracked(pair, leaves, branchpos, c, level, matchh, matchlevel, newBranch);
    LeafTwins(pair, leaves, c, level);
    inner[level] := h;
    newLevel := if matchh then level else matchlevel;
    mutated := wasMutated || twins;
  }

  // ---- the sweep along the right edge

  /** h is the hash of the last node of the level, which is not above the root. */
  ghost predicate AtEdge(pair: Pair, leaves: seq<Hash>, level: nat, h: Hash) {
    && Width(|leaves|, level) > 0 && h == Node(pair, leaves, level, Width(|leaves|, level) - 1)
    && forall k :: 0 <= k < level ==> Width(|leaves|, k) > 1
  }

  /** The branch on the way: up to this level if the last node lies above leaf p, else up to a kept node further up. */
  ghost predicate EdgeBranch(pair: Pair, leaves: seq<Hash>, p: int, level: nat, matchh: bool, matchlevel: int,
                             branch: seq<Hash>) {
    var n := |leaves|;
    if 0 <= p < n then
      if matchh then Complete(p, level) == Width(n, level) - 1 && branch == Branch(pair, leaves, p, level)
      else
        && Tracked(pair, leaves, p, n, matchlevel, branch) && matchlevel >= level
        && (Width(n, level) == Complete(n, level) ==> matchlevel > level)
    else !matchh && matchlevel == -1 && branch == []
  }

  /** A last node without neighbour goes up with itself. */
  lemma SweepOdd(pair: Pair, leaves: seq<Hash>, p: int, level: nat, h: Hash, matchh: bool, matchlevel: int,
                 branch: seq<Hash>)
    requires AtEdge(pair, leaves, level, h) && EdgeBranch(pair, leaves, p, level, matchh, matchlevel, branch)
    requires Width(|leaves|, level) % 2 == 1 && Width(|leaves|, level) > 1
    ensures AtEdge(pair, leaves, level + 1, pair(h, h))
    ensures EdgeBranch(pair, leaves, p, level + 1, matchh, matchlevel, if matchh then branch + [h] else branch)
    ensures Width(|leaves|, level + 1) == Complete(|leaves|, level + 1) + 1 == (Width(|leaves|, level) + 1) / 2
  {
    var n := |leaves|;
    CompleteOrOneMore(n, level);
    CompleteOrOneMore(n, level + 1);
    ParentOfOne(pair, leaves, level, Width(n, level) - 1);
  }

  /** A last node with a neighbour, which was kept, goes up with it. */
  lemma SweepEven(pair: Pair, leaves: seq<Hash>, level: nat, h: Hash, left: Hash)
    requires AtEdge(pair, leaves, level, h)
    requires Width(|leaves|, level) % 2 == 0 && Width(|leaves|, level) == Complete(|leaves|, level) + 1
    requires left == Node(pair, leaves, level, Complete(|leaves|, level) - 1)
    ensures AtEdge(pair, leaves, level + 1, pair(left, h))
    ensures Width(|leaves|, level + 1) == Complete(|leaves|, level + 1) + 1 == Width(|leaves|, level) / 2
  {
    var n := |leaves|;
    var k := Width(n, level) - 2;
    CompleteOrOneMore(n, level + 1);
    assert Width(n, level + 1) == (k + 3) / 2 && k / 2 == Width(n, level + 1) - 1;
    ParentOfTwo(pair, leaves, level, k);
  }

  /** The node above leaf p is one of the last two of the level, and its branch takes in the other one. */
  lemma EvenBranchGrows(pair: Pair, leaves: seq<Hash>, p: nat, level: nat, k: nat, w: nat)
    requires p < |leaves| && w == Width(|leaves|, level) && w % 2 == 0 && k == Complete(p, level) && w - 2 <= k < w
    ensures Complete(p, level + 1) == Width(|leaves|, level + 1) - 1
    ensures Branch(pair, leaves, p, level + 1)
      == Branch(pair, leaves, p, level) + [Node(pair, leaves, level, if k == w - 1 then w - 2 else w - 1)]
  {
    assert Sibling(|leaves|, level, k) == if k == w - 1 then w - 2 else w - 1;
  }

  lemma SweepEvenBranch(pair: Pair, leaves: seq<Hash>, p: int, level: nat, h: Hash, matchh: bool, matchlevel: int,
                        branch: seq<Hash>, left: Hash)
    requires EdgeBranch(pair, leaves, p, level, matchh, matchlevel, branch)
    requires Width(|leaves|, level) % 2 == 0 && Width(|leaves|, level) == Complete(|leaves|, level) + 1
    requires left == Node(pair, leaves, level, Width(|leaves|, level) - 2)
    requires h == Node(pair, leaves, level, Width(|leaves|, level) - 1)
    ensures EdgeBranch(pair, leaves, p, level + 1, matchh || matchlevel == level, matchlevel,
                       if matchh then branch + [left] else if matchlevel == level then branch + [h] else branch)
  {
    var n, w := |leaves|, Width(|leaves|, level);
    CompleteOrOneMore(n, level + 1);
    if 0 <= p < n && (matchh || matchlevel == level) {
      EvenBranchGrows(pair, leaves, p, level, if matchh then w - 1 else w - 2, w);
    } else {
      OtherBranchStays(pair, leaves, p, level, matchh, matchlevel, branch);
    }
  }

  /** Nothing is added to the branch of a leaf that is not below the last two nodes of the level. */
  lemma OtherBranchStays(pair: Pair, leaves: seq<Hash>, p: int, level: nat, matchh: bool, matchlevel: int,
                         branch: seq<Hash>)
    requires EdgeBranch(pair, leaves, p, level, matchh, matchlevel, branch)
    requires 0 <= p < |leaves| ==> !matchh && matchlevel != level
    requires Width(|leaves|, level + 1) == Complete(|leaves|, level + 1) + 1
    ensures EdgeBranch(pair, leaves, p, level + 1, matchh, matchlevel, branch)
  {
  }

  lemma {:induction false} WidthFits(n: nat, h: nat, d: nat)
    requires n <= Pow(2, h + d)
    ensures Width(n, h) <= Pow(2, d)
  {
    if h > 0 {
      WidthFits(n, h - 1, d + 1);
    }
  }

  /** The number of leaves there would be if the nodes up to height h had no odd one out. */
  function FilledUp(n: nat, h: nat): nat {
    if h == 0 then n else FilledUp(n, h - 1) + if Width(n, h - 1) % 2 == 1 then Pow(2, h - 1) else 0
  }

  lemma Doubling(m: nat, w: nat, p: nat)
    requires w == 2 * m
    ensures m * (2 * p) == w * p
  {
  }

  lemma Distributes(w: nat, b: nat, p: nat)
    requires b < 2
    ensures (w + b) * p == w * p + if b == 1 then p else 0
  {
  }

  lemma {:induction false} FilledUpIs(n: nat, h: nat)
    ensures FilledUp(n, h) == Width(n, h) * Pow(2, h)
  {
    if h > 0 {
      FilledUpIs(n, h - 1);
      var w := Width(n, h - 1);
      Doubling(Width(n, h), w + w % 2, Pow(2, h - 1));
      Distributes(w, w % 2, Pow(2, h - 1));
    }
  }

  lemma FilledUpBit(n: nat, h: nat)
    ensures BitSet(FilledUp(n, h), h) <==> Width(n, h) % 2 == 1
    ensures FilledUp(n, h) == Pow(2, h) <==> Width(n, h) == 1
  {
    var w, p := Width(n, h), Pow(2, h);
    FilledUpIs(n, h);
    DivMulExact(w, p);
    DivMulExact(1, p);
  }

  /** That number stays within 32 bits, for up to 2^31 leaves. */
  lemma CountFits(n: nat, level: nat)
    requires n <= 0x8000_0000 && forall k :: 0 <= k < level ==> Width(n, k) > 1
    ensures level <= 31 && FilledUp(n, level) <= 0x8000_0000
  {
    var top := 31;
    PowersOfTwo();
    assert Pow(2, 32) == 2 * Pow(2, top);
    FilledUpIs(n, level);
    if level > top {
      WidthFits(n, top, 0);
    } else {
      WidthFits(n, level, top - level);
      MulMonotone(Width(n, level), Pow(2, top - level), Pow(2, level));
      PowAdd(2, top - level, level);
    }
  }

  lemma {:induction false} NothingToFill(n: nat, h: nat, level: nat)
    requires h <= level && Complete(n, level) == Width(n, level) && Complete(n, level) % 2 == 1 && n > 0
    ensures FilledUp(n, h) == n
  {
    if h > 0 {
      NothingToFill(n, h - 1, level);
      OtherLevels(n, level, h - 1);
    }
  }

  /** The lowest level at which the leaves do not pair up. */
  method LowestBit(leaves: seq<Hash>) returns (level: nat)
    requires 0 < |leaves| < 0x1_0000_0000
    ensures Complete(|leaves|, level) == Width(|leaves|, level) && Complete(|leaves|, level) % 2 == 1
    ensures forall k :: 0 <= k < level ==> Width(|leaves|, k) > 1
  {
    ghost var n := |leaves|;
    level := 0;
    while !BitSet(|leaves|, level)
      invariant Complete(n, level) == Width(n, level) > 0
      invariant forall k :: 0 <= k < level ==> Width(n, k) > 1
      decreases Complete(n, level)
    {
      BitIsOdd(n, level);
      CompleteOrOneMore(n, level + 1);
      level := level + 1;
    }
    BitIsOdd(n, level);
  }

  /** The state of the sweep: the last node of a level, its hash, and the branch so far. */
  datatype Edge = Edge(level: nat, h: Hash, matchh: bool, branch: seq<Hash>)

  ghost predicate RisesAt(pair: Pair, leaves: seq<Hash>, p: int, count: nat, matchlevel: int, e: Edge, level: nat) {
    && AtEdge(pair, leaves, level, e.h)
    && EdgeBranch(pair, leaves, p, level, e.matchh, matchlevel, e.branch)
    && count == FilledUp(|leaves|, level) && Width(|leaves|, level) == Complete(|leaves|, level) + 1
  }

  /** Going up the right edge above a level that had an odd one out; count stands for the level filled up. */
  ghost predicate Rises(pair: Pair, leaves: seq<Hash>, p: int, count: nat, matchlevel: int, e: Edge) {
    forall level :: level == e.level ==> RisesAt(pair, leaves, p, count, matchlevel, e, level)
  }

  lemma NothingFilled(n: nat, level: nat)
    requires Width(n, level) % 2 == 0
    ensures FilledUp(n, level + 1) == FilledUp(n, level)
  {
  }

  /** Takes the last node up one level with its neighbour. */
  method StepUp(pair: Pair, leaves: seq<Hash>, branchpos: int, ghost count: nat, left: Hash, matchlevel: int, e: Edge)
    returns (r: Edge)
    requires Rises(pair, leaves, branchpos, count, matchlevel, e) && Width(|leaves|, e.level) % 2 == 0
    requires left == Node(pair, leaves, e.level, Complete(|leaves|, e.level) - 1)
    ensures Rises(pair, leaves, branchpos, count, matchlevel, r) && r.level == e.level + 1
    ensures 0 < Width(|leaves|, r.level) < Width(|leaves|, e.level)
  {
    var level := e.level;
    assert RisesAt(pair, leaves, branchpos, count, matchlevel, e, level);
    NothingFilled(|leaves|, level);
    SweepEven(pair, leaves, level, e.h, left);
    SweepEvenBranch(pair, leaves, branchpos, level, e.h, e.matchh, matchlevel, e.branch, left);
    var matchh, branch := e.matchh, e.branch;
    if matchh {
      branch := branch + [left];
    } else if matchlevel == level {
      branch := branch + [e.h];
      matchh := true;
    }
    r := Edge(level + 1, pair(left, e.h), matchh, branch);
    assert RisesAt(pair, leaves, branchpos, count, matchlevel, r, level + 1);
  }

  /** Goes up from the last node as long as it has a neighbour. */
  method SweepUp(pair: Pair, leaves: seq<Hash>, branchpos: int, inner: array<Hash>, count: nat, matchlevel: int,
                 e0: Edge)
    returns (e: Edge)
    requires 0 < |leaves| <= 0x8000_0000 && inner.Length == 32 && Kept(pair, leaves, inner[..], |leaves|)
    requires Rises(pair, leaves, branchpos, count, matchlevel, e0)
    ensures Rises(pair, leaves, branchpos, count, matchlevel, e)
    ensures Width(|leaves|, e.level) <= Width(|leaves|, e0.level) && Width(|leaves|, e.level) % 2 == 1
  {
    e := e0;
    ghost var w := Width(|leaves|, e0.level);
    var more, left := Neighbour(pair, leaves, branchpos, inner, count, matchlevel, e);
    while more
      invariant Rises(pair, leaves, branchpos, count, matchlevel, e)
      invariant w == Width(|leaves|, e.level) <= Width(|leaves|, e0.level) && (more <==> w % 2 == 0)
      invariant more ==> left == Node(pair, leaves, e.level, Complete(|leaves|, e.level) - 1)
      decreases w
    {
      e := StepUp(pair, leaves, branchpos, count, left, matchlevel, e);
      w := Width(|leaves|, e.level);
      more, left := Neighbour(pair, leaves, branchpos, inner, count, matchlevel, e);
    }
  }

  /** Does the last node of the level have a neighbour? That shows in the count. If so it was kept. */
  method Neighbour(pair: Pair, leaves: seq<Hash>, ghost branchpos: int, inner: array<Hash>, count: nat,
                   ghost matchlevel: int, e: Edge)
    returns (r: bool, left: Hash)
    requires 0 < |leaves| <= 0x8000_0000 && inner.Length == 32 && Kept(pair, leaves, inner[..], |leaves|)
    requires Rises(pair, leaves, branchpos, count, matchlevel, e)
    ensures r <==> Width(|leaves|, e.level) % 2 == 0
    ensures r ==> left == Node(pair, leaves, e.level, Complete(|leaves|, e.level) - 1)
  {
    RisesCounts(pair, leaves, branchpos, count, matchlevel, e);
    left := ZERO;
    r := HasNeighbour(count, e.level, |leaves|);
    if r {
      left := KeptAt(pair, leaves, inner, e.level);
    }
  }

  lemma RisesCounts(pair: Pair, leaves: seq<Hash>, p: int, count: nat, matchlevel: int, e: Edge)
    requires Rises(pair, leaves, p, count, matchlevel, e)
    ensures count == FilledUp(|leaves|, e.level)
    ensures Width(|leaves|, e.level) % 2 == 0 <==> Complete(|leaves|, e.level) % 2 == 1
  {
    assert RisesAt(pair, leaves, p, count, matchlevel, e, e.level);
    Neighbours(Width(|leaves|, e.level), Complete(|leaves|, e.level));
  }

  lemma Neighbours(w: nat, c: nat)
    requires w == c + 1
    ensures w % 2 == 0 <==> c % 2 == 1
  {
  }

  /** What is kept at a level whose bit is set in the number of leaves. */
  method KeptAt(pair: Pair, leaves: seq<Hash>, inner: array<Hash>, level: nat) returns (left: Hash)
    requires 0 < |leaves| <= 0x8000_0000 && inner.Length == 32 && Kept(pair, leaves, inner[..], |leaves|)
    requires Complete(|leaves|, level) % 2 == 1
    ensures left == Node(pair, leaves, level, Complete(|leaves|, level) - 1)
  {
    FewLevels(|leaves|, level);
    left := inner[level];
    assert inner[..][level] == left;
  }

  method HasNeighbour(count: nat, level: nat, ghost n: nat) returns (r: bool)
    requires count == FilledUp(n, level)
    ensures r <==> Width(n, level) % 2 == 0
  {
    FilledUpBit(n, level);
    r := !BitSet(count, level);
  }

  /** The last node of an odd level, which is not the only one. */
  ghost predicate OddAt(pair: Pair, leaves: seq<Hash>, p: int, count: nat, matchlevel: int, e: Edge, level: nat) {
    && AtEdge(pair, leaves, level, e.h)
    && EdgeBranch(pair, leaves, p, level, e.matchh, matchlevel, e.branch)
    && count == FilledUp(|leaves|, level) && Width(|leaves|, level) % 2 == 1
  }

  ghost predicate AtOdd(pair: Pair, leaves: seq<Hash>, p: int, count: nat, matchlevel: int, e: Edge) {
    forall level :: level == e.level ==> OddAt(pair, leaves, p, count, matchlevel, e, level)
  }

  /** Takes the last node, which has no neighbour, up one level with itself, and counts as if it had one. */
  method StepOdd(pair: Pair, leaves: seq<Hash>, branchpos: int, count: nat, matchlevel: int, e: Edge)
    returns (newCount: nat, r: Edge)
    requires 0 < |leaves| <= 0x8000_0000 && AtOdd(pair, leaves, branchpos, count, matchlevel, e)
    requires count != Pow(2, e.level)
    ensures Rises(pair, leaves, branchpos, newCount, matchlevel, r) && newCount <= 0x8000_0000
    ensures Width(|leaves|, r.level) < Width(|leaves|, e.level)
  {
    var level := e.level;
    assert OddAt(pair, leaves, branchpos, count, matchlevel, e, level);
    FilledUpBit(|leaves|, level);
    SweepOdd(pair, leaves, branchpos, level, e.h, e.matchh, matchlevel, e.branch);
    r := Edge(level + 1, pair(e.h, e.h), e.matchh, if e.matchh then e.branch + [e.h] else e.branch);
    newCount := count + Pow(2, level);
    CountFits(|leaves|, level + 1);
    assert RisesAt(pair, leaves, branchpos, newCount, matchlevel, r, level + 1);
  }

  lemma RisenToOdd(pair: Pair, leaves: seq<Hash>, p: int, count: nat, matchlevel: int, e: Edge)
    requires Rises(pair, leaves, p, count, matchlevel, e) && Width(|leaves|, e.level) % 2 == 1
    ensures AtOdd(pair, leaves, p, count, matchlevel, e)
  {
    assert RisesAt(pair, leaves, p, count, matchlevel, e, e.level);
    assert OddAt(pair, leaves, p, count, matchlevel, e, e.level);
  }

  /** The root, with the branch completed. */
  lemma AtRoot(pair: Pair, leaves: seq<Hash>, p: int, count: nat, matchlevel: int, e: Edge)
    requires leaves != [] && AtOdd(pair, leaves, p, count, matchlevel, e) && count == Pow(2, e.level)
    ensures e.h == Root(pair, leaves)
    ensures e.branch == if 0 <= p < |leaves| then Branch(pair, leaves, p, Height(|leaves|)) else []
  {
    var n, level := |leaves|, e.level;
    assert OddAt(pair, leaves, p, count, matchlevel, e, level);
    FilledUpBit(n, level);
    RootExists(n);
    assert Height(n) == level;
    if 0 <= p < n && !e.matchh {
      CompleteOrOneMore(n, level);
      CompletePositive(n, level, matchlevel);
      CompleteOrOneMore(n, level + 1);
      CompletePositive(n, level + 1, matchlevel);
    }
  }

  /** The right edge of the tree, from its lowest node without neighbour up to the root. */
  method Sweep(pair: Pair, leaves: seq<Hash>, branchpos: int, inner: array<Hash>, matchlevel: int, branch0: seq<Hash>)
    returns (root: Hash, branch: seq<Hash>)
    requires 0 < |leaves| <= 0x8000_0000 && inner.Length == 32 && Kept(pair, leaves, inner[..], |leaves|)
    requires Tracked(pair, leaves, branchpos, |leaves|, matchlevel, branch0)
    ensures root == Root(pair, leaves)
    ensures branch == if 0 <= branchpos < |leaves| then Branch(pair, leaves, branchpos, Height(|leaves|)) else []
  {
    var count: nat := |leaves|;
    var level := LowestBit(leaves);
    FewLevels(count, level);
    var e := Edge(level, inner[level], matchlevel == level, branch0);
    StartsAtEdge(pair, leaves, branchpos, inner[..], level, matchlevel, branch0);
    assert OddAt(pair, leaves, branchpos, count, matchlevel, e, level);
    ghost var w := Width(|leaves|, level);
    while count != Pow(2, e.level)
      invariant AtOdd(pair, leaves, branchpos, count, matchlevel, e) && w == Width(|leaves|, e.level)
      decreases w
    {
      count, e := StepOdd(pair, leaves, branchpos, count, matchlevel, e);
      e := SweepUp(pair, leaves, branchpos, inner, count, matchlevel, e);
      RisenToOdd(pair, leaves, branchpos, count, matchlevel, e);
      w := Width(|leaves|, e.level);
    }
    AtRoot(pair, leaves, branchpos, count, matchlevel, e);
    root, branch := e.h, e.branch;
  }

  lemma StartsAtEdge(pair: Pair, leaves: seq<Hash>, p: int, inner: seq<Hash>, level: nat, matchlevel: int,
                     branch: seq<Hash>)
    requires leaves != [] && level < |inner| && Kept(pair, leaves, inner, |leaves|)
    requires Complete(|leaves|, level) == Width(|leaves|, level) && Complete(|leaves|, level) % 2 == 1
    requires forall k :: 0 <= k < level ==> Width(|leaves|, k) > 1
    requires Tracked(pair, leaves, p, |leaves|, matchlevel, branch)
    ensures AtEdge(pair, leaves, level, inner[level])
    ensures EdgeBranch(pair, leaves, p, level, matchlevel == level, matchlevel, branch)
    ensures |leaves| == FilledUp(|leaves|, level)
  {
    var n := |leaves|;
    NothingToFill(n, level, level);
    if 0 <= p < n && matchlevel < level {
      OtherLevels(n, level, matchlevel);
    }
  }

  /** Root, flag for duplicates and branch in one pass over the leaves and one along the edge. */
  method Compute(pair: Pair, leaves: seq<Hash>, branchpos: int)
    returns (root: Hash, mutated: bool, branch: seq<Hash>)
    requires |leaves| <= 0x8000_0000
    ensures root == if leaves == [] then ZERO else Root(pair, leaves)
    ensures mutated <==> Mutated(pair, leaves, |leaves|)
    ensures branch == if 0 <= branchpos < |leaves| then Branch(pair, leaves, branchpos, Height(|leaves|)) else []
  {
    mutated, branch := false, [];
    var inner := new Hash[32](_ => ZERO);
    NothingKept(pair, leaves, inner[..], branchpos);
    if leaves == [] {
      return ZERO, false, [];
    }
    var count, matchlevel := 0, -1;
    while count < |leaves|
      invariant count <= |leaves| && Kept(pair, leaves, inner[..], count)
      invariant Tracked(pair, leaves, branchpos, count, matchlevel, branch)
      invariant mutated <==> Mutated(pair, leaves, count)
    {
      mutated, matchlevel, branch := AddLeaf(pair, leaves, count, branchpos, inner, mutated, matchlevel, branch);
      count := count + 1;
    }
    root, branch := Sweep(pair, leaves, branchpos, inner, matchlevel, branch);
  }

  lemma {:induction false} NoneComplete(l: nat)
    ensures Complete(0, l) == 0
  {
    if l > 0 {
      NoneComplete(l - 1);
    }
  }

  /** Before the first leaf. */
  lemma NothingKept(pair: Pair, leaves: seq<Hash>, inner: seq<Hash>, p: int)
    ensures Kept(pair, leaves, inner, 0) && Tracked(pair, leaves, p, 0, -1, []) && !Mutated(pair, leaves, 0)
  {
    forall l: nat
      ensures Complete(0, l) == 0
    {
      NoneComplete(l);
    }
  }

  /** Hashes a leaf with the branch, on the sides that the position tells. */
  method RootFromBranch(pair: Pair, leaf: Hash, branch: seq<Hash>, position: nat) returns (hash: Hash)
    ensures hash == FromBranch(pair, leaf, branch, position, |branch|)
  {
    hash := leaf;
    var index := position;
    for i := 0 to |branch|
      invariant index == Complete(position, i) && hash == FromBranch(pair, leaf, branch, position, i)
    {
      hash := if index % 2 == 1 then pair(branch[i], hash) else pair(hash, branch[i]);
      index := index / 2;
    }
  }

  lemma TopOfBranch(pair: Pair, leaves: seq<Hash>, p: nat)
    requires p < |leaves|
    ensures Node(pair, leaves, Height(|leaves|), Complete(p, Height(|leaves|))) == Root(pair, leaves)
  {
    RootExists(|leaves|);
    AboveLeaf(|leaves|, p, Height(|leaves|));
  }

  /** The branch that is computed for a transaction leads from its id to the root. */
  method ComputeAndCheck(pair: Pair, leaves: seq<Hash>, position: nat) returns (branch: seq<Hash>, hash: Hash)
    requires position < |leaves| <= 0x8000_0000
    ensures |branch| == Height(|leaves|) && hash == Root(pair, leaves)
  {
    var root, mutated;
    root, mutated, branch := Compute(pair, leaves, position);
    hash := RootFromBranch(pair, leaves[position], branch, position);
    BranchLeads(pair, leaves, branch, position, |branch|);
    TopOfBranch(pair, leaves, position);
  }
}
