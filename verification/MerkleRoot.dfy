/**
 The Merkle root of a block and the branches of its transactions: which nodes of the tree
 the constant-space computation keeps, and what its flag for duplicates protects from.
 */
module MerkleRoot {
  import opened MerkleModel
  import opened MerkleTheorems

  /** The number of complete nodes at height h over n leaves; bit h of n is set if it is odd. */
  function Complete(n: nat, h: nat): nat {
    if h == 0 then n else Complete(n, h - 1) / 2
  }

  /** All nodes of a level are complete, or all but the last. */
  lemma {:induction false} CompleteOrOneMore(n: nat, h: nat)
    ensures Complete(n, h) <= Width(n, h) <= Complete(n, h) + 1
    ensures h > 0 && Width(n, h - 1) == Complete(n, h - 1) + 1 ==> Width(n, h) == Complete(n, h) + 1
    ensures h > 0 && Width(n, h - 1) == Complete(n, h - 1) ==> Width(n, h) == Complete(n, h) + Complete(n, h - 1) % 2
  {
    if h > 0 {
      CompleteOrOneMore(n, h - 1);
    }
  }

  lemma {:induction false} CompleteMonotone(m: nat, n: nat, h: nat)
    requires m <= n
    ensures Complete(m, h) <= Complete(n, h) && Width(m, h) <= Width(n, h)
  {
    if h > 0 {
      CompleteMonotone(m, n, h - 1);
    }
  }

  /** The hash of a node; zero where there is none. */
  function Node(pair: Pair, leaves: seq<Hash>, h: nat, k: int): Hash {
    if 0 <= k < Width(|leaves|, h) then CalcHash(pair, leaves, h, k) else ZERO
  }

  /** Two neighbours, of which the first has an even position, make up their parent. */
  lemma ParentOfTwo(pair: Pair, leaves: seq<Hash>, h: nat, k: nat)
    requires k % 2 == 0 && k + 1 < Width(|leaves|, h)
    ensures k / 2 < Width(|leaves|, h + 1)
    ensures Node(pair, leaves, h + 1, k / 2) == pair(Node(pair, leaves, h, k), Node(pair, leaves, h, k + 1))
  {
  }

  /** A last node without neighbour is paired with itself. */
  lemma ParentOfOne(pair: Pair, leaves: seq<Hash>, h: nat, k: nat)
    requires k % 2 == 0 && k + 1 == Width(|leaves|, h)
    ensures k / 2 + 1 == Width(|leaves|, h + 1)
    ensures Node(pair, leaves, h + 1, k / 2) == pair(Node(pair, leaves, h, k), Node(pair, leaves, h, k))
  {
  }

  // ---- branches

  /** The position of the node that the one at position k is hashed with. */
  function Sibling(n: nat, h: nat, k: nat): nat {
    if k % 2 == 1 then k - 1 else if k + 1 < Width(n, h) then k + 1 else k
  }

  /** The first h siblings on the way up from leaf p. */
  function Branch(pair: Pair, leaves: seq<Hash>, p: nat, h: nat): (b: seq<Hash>)
    ensures |b| == h
  {
    if h == 0 then [] else
      Branch(pair, leaves, p, h - 1) + [Node(pair, leaves, h - 1, Sibling(|leaves|, h - 1, Complete(p, h - 1)))]
  }

  lemma {:induction false} BranchAt(pair: Pair, leaves: seq<Hash>, p: nat, h: nat, i: nat)
    requires i < h
    ensures Branch(pair, leaves, p, h)[i] == Node(pair, leaves, i, Sibling(|leaves|, i, Complete(p, i)))
  {
    if i < h - 1 {
      BranchAt(pair, leaves, p, h - 1, i);
    }
  }

  /** The node above leaf p exists at every height. */
  lemma {:induction false} AboveLeaf(n: nat, p: nat, h: nat)
    requires p < n
    ensures Complete(p, h) < Width(n, h)
  {
    if h > 0 {
      AboveLeaf(n, p, h - 1);
    }
  }

  lemma RightOfTwo(pair: Pair, leaves: seq<Hash>, h: nat, k: nat, j: nat)
    requires k % 2 == 1 && k < Width(|leaves|, h) && j == k - 1
    ensures Node(pair, leaves, h + 1, k / 2) == pair(Node(pair, leaves, h, j), Node(pair, leaves, h, k))
  {
    assert j / 2 == k / 2;
    ParentOfTwo(pair, leaves, h, j);
  }

  lemma LeftOfTwo(pair: Pair, leaves: seq<Hash>, h: nat, k: nat, j: nat)
    requires k % 2 == 0 && k < Width(|leaves|, h) && j == if k + 1 < Width(|leaves|, h) then k + 1 else k
    ensures Node(pair, leaves, h + 1, k / 2) == pair(Node(pair, leaves, h, k), Node(pair, leaves, h, j))
  {
    if k + 1 < Width(|leaves|, h) {
      ParentOfTwo(pair, leaves, h, k);
    } else {
      ParentOfOne(pair, leaves, h, k);
    }
  }

  /** A node is hashed with its sibling, on the side that its position tells. */
  lemma BranchStep(pair: Pair, leaves: seq<Hash>, h: nat, k: nat, own: Hash, other: Hash)
    requires k < Width(|leaves|, h) && own == Node(pair, leaves, h, k)
    requires other == Node(pair, leaves, h, Sibling(|leaves|, h, k))
    ensures Node(pair, leaves, h + 1, k / 2) == if k % 2 == 1 then pair(other, own) else pair(own, other)
  {
    if k % 2 == 1 {
      RightOfTwo(pair, leaves, h, k, Sibling(|leaves|, h, k));
    } else {
      LeftOfTwo(pair, leaves, h, k, Sibling(|leaves|, h, k));
    }
  }

  /** A leaf hashed with the first n of a branch, on the sides that its position tells. */
  function FromBranch(pair: Pair, leaf: Hash, branch: seq<Hash>, p: nat, n: nat): Hash
    requires n <= |branch|
  {
    if n == 0 then leaf else
    var own, other := FromBranch(pair, leaf, branch, p, n - 1), branch[n - 1];
    if Complete(p, n - 1) % 2 == 1 then pair(other, own) else pair(own, other)
  }

  /** The branch of a leaf leads from it to the node above it. */
  lemma {:induction false} BranchLeads(pair: Pair, leaves: seq<Hash>, branch: seq<Hash>, p: nat, n: nat)
    requires p < |leaves| && n <= |branch| && branch == Branch(pair, leaves, p, |branch|)
    ensures FromBranch(pair, leaves[p], branch, p, n) == Node(pair, leaves, n, Complete(p, n))
  {
    if n > 0 {
      var m := n - 1;
      BranchLeads(pair, leaves, branch, p, m);
      BranchAt(pair, leaves, p, |branch|, m);
      AboveLeaf(|leaves|, p, m);
      BranchStep(pair, leaves, m, Complete(p, m), FromBranch(pair, leaves[p], branch, p, m), branch[m]);
    }
  }

  /** Two hashes that make up the parent of a node are that node and its sibling. */
  lemma PartsAgree(pair: Pair, leaves: seq<Hash>, h: nat, k: nat, own: Hash, other: Hash)
    requires Injective(pair) && k < Width(|leaves|, h)
    requires Node(pair, leaves, h + 1, k / 2) == if k % 2 == 1 then pair(other, own) else pair(own, other)
    ensures own == Node(pair, leaves, h, k) && other == Node(pair, leaves, h, Sibling(|leaves|, h, k))
  {
    var j := Sibling(|leaves|, h, k);
    BranchStep(pair, leaves, h, k, Node(pair, leaves, h, k), Node(pair, leaves, h, j));
  }

  /** Whatever leads to the node above a position is the leaf there, with its branch. */
  lemma {:induction false} BranchAuthentic(pair: Pair, leaves: seq<Hash>, leaf: Hash, branch: seq<Hash>, p: nat, n: nat)
    requires Injective(pair) && p < |leaves| && n <= |branch|
    requires FromBranch(pair, leaf, branch, p, n) == Node(pair, leaves, n, Complete(p, n))
    ensures leaf == leaves[p] && branch[..n] == Branch(pair, leaves, p, n)
  {
    if n == 0 {
      AboveLeaf(|leaves|, p, n);
    } else {
      AboveLeaf(|leaves|, p, n - 1);
      PartsAgree(pair, leaves, n - 1, Complete(p, n - 1), FromBranch(pair, leaf, branch, p, n - 1), branch[n - 1]);
      BranchAuthentic(pair, leaves, leaf, branch, p, n - 1);
      assert branch[..n] == branch[..n - 1] + [branch[n - 1]];
    }
  }

  /** A branch of the right length leads to the root exactly from the leaf at its position, whose branch it is. */
  lemma BranchProves(pair: Pair, leaves: seq<Hash>, leaf: Hash, branch: seq<Hash>, p: nat)
    requires Injective(pair) && p < |leaves| && |branch| == Height(|leaves|)
    ensures FromBranch(pair, leaf, branch, p, |branch|) == Root(pair, leaves) <==>
      leaf == leaves[p] && branch == Branch(pair, leaves, p, |branch|)
  {
    RootExists(|leaves|);
    AboveLeaf(|leaves|, p, |branch|);
    assert branch[..|branch|] == branch;
    if FromBranch(pair, leaf, branch, p, |branch|) == Root(pair, leaves) {
      BranchAuthentic(pair, leaves, leaf, branch, p, |branch|);
    } else if leaf == leaves[p] && branch == Branch(pair, leaves, p, |branch|) {
      BranchLeads(pair, leaves, branch, p, |branch|);
    }
  }

  // ---- duplicates

  /** Two complete neighbours that are hashed together are the same. */
  ghost predicate Twins(pair: Pair, leaves: seq<Hash>, n: nat, h: nat, k: nat) {
    k % 2 == 0 && k + 1 < Complete(n, h) && Node(pair, leaves, h, k) == Node(pair, leaves, h, k + 1)
  }

  /** There are twins among the first n leaves, or above them. */
  ghost predicate Mutated(pair: Pair, leaves: seq<Hash>, n: nat) { exists h, k :: Twins(pair, leaves, n, h, k) }

  /** Where the children of an incomplete node are. */
  lemma IncompleteChildren(n: nat, h: nat, q: nat)
    requires Complete(n, h + 1) <= q < Width(n, h + 1)
    ensures 2 * q < Width(n, h) && 2 * q + 1 >= Complete(n, h)
  {
    CompleteOrOneMore(n, h);
  }

  /** A complete node that equals an incomplete one, which is padded with its own last part, has twins below it. */
  lemma {:induction false} PaddingHasTwins(pair: Pair, b: seq<Hash>, h: nat, p: nat, q: nat)
    requires Injective(pair) && p < Complete(|b|, h) <= q < Width(|b|, h)
    requires Node(pair, b, h, p) == Node(pair, b, h, q)
    ensures Mutated(pair, b, |b|)
  {
    if h > 0 {
      var n, g := |b|, h - 1;
      var l, r := 2 * p, 2 * q;
      CompleteOrOneMore(n, g);
      IncompleteChildren(n, g, q);
      ParentOfTwo(pair, b, g, l);
      assert l / 2 == p && r / 2 == q;
      if r + 1 < Width(n, g) {
        ParentOfTwo(pair, b, g, r);
        PaddingHasTwins(pair, b, g, l + 1, r + 1);
      } else {
        ParentOfOne(pair, b, g, r);
        assert Twins(pair, b, n, g, l);
      }
    }
  }

  /** Two equal neighbours that are hashed together mean twins, even if the second is incomplete. */
  lemma EqualNeighbours(pair: Pair, b: seq<Hash>, h: nat, k: nat)
    requires Injective(pair) && k % 2 == 0 && k + 1 < Width(|b|, h)
    requires Node(pair, b, h, k) == Node(pair, b, h, k + 1)
    ensures Mutated(pair, b, |b|)
  {
    CompleteOrOneMore(|b|, h);
    if k + 1 < Complete(|b|, h) {
      assert Twins(pair, b, |b|, h, k);
    } else {
      PaddingHasTwins(pair, b, h, k, k + 1);
    }
  }

  /** Equal nodes have equal children, and as many, if the list that may be longer has no twins. */
  lemma ChildrenAgree(pair: Pair, a: seq<Hash>, b: seq<Hash>, h: nat, pos: nat, k: nat)
    requires Injective(pair) && |a| <= |b| && !Mutated(pair, b, |b|) && k == 2 * pos
    requires pos < Width(|a|, h + 1) && Node(pair, a, h + 1, pos) == Node(pair, b, h + 1, pos)
    ensures k < Width(|a|, h) <= Width(|b|, h) && pos < Width(|b|, h + 1)
    ensures Node(pair, a, h, k) == Node(pair, b, h, k)
    ensures k + 1 < Width(|a|, h) <==> k + 1 < Width(|b|, h)
    ensures k + 1 < Width(|a|, h) ==> Node(pair, a, h, k + 1) == Node(pair, b, h, k + 1)
  {
    CompleteMonotone(|a|, |b|, h);
    assert k / 2 == pos && k % 2 == 0;
    if k + 1 < Width(|a|, h) {
      ParentOfTwo(pair, a, h, k);
      ParentOfTwo(pair, b, h, k);
    } else if k + 1 < Width(|b|, h) {
      ParentOfOne(pair, a, h, k);
      ParentOfTwo(pair, b, h, k);
      EqualNeighbours(pair, b, h, k);
      assert false;
    } else {
      ParentOfOne(pair, a, h, k);
      ParentOfOne(pair, b, h, k);
    }
  }

  /** The leaves below the node are the same in both lists. */
  ghost predicate SameLeaves(a: seq<Hash>, b: seq<Hash>, h: nat, pos: nat)
    requires pos < Width(|a|, h) && pos < Width(|b|, h)
  {
    && Last(|a|, h, pos) == Last(|b|, h, pos) <= |a| && Last(|b|, h, pos) <= |b|
    && forall i :: First(h, pos) <= i < Last(|a|, h, pos) ==> a[i] == b[i]
  }

  lemma {:induction false} SameNodeSameLeaves(pair: Pair, a: seq<Hash>, b: seq<Hash>, h: nat, pos: nat)
    requires Injective(pair) && |a| <= |b| && !Mutated(pair, b, |b|)
    requires pos < Width(|a|, h) <= Width(|b|, h) && Node(pair, a, h, pos) == Node(pair, b, h, pos)
    ensures SameLeaves(a, b, h, pos)
  {
    if h > 0 {
      var g, k := h - 1, 2 * pos;
      ChildrenAgree(pair, a, b, g, pos, k);
      SameNodeSameLeaves(pair, a, b, g, k);
      if k + 1 < Width(|a|, g) {
        SameNodeSameLeaves(pair, a, b, g, k + 1);
      }
      LeavesJoin(a, b, g, pos, k);
    }
  }

  lemma LeavesJoin(a: seq<Hash>, b: seq<Hash>, h: nat, pos: nat, k: nat)
    requires k == 2 * pos && k < Width(|a|, h) && k < Width(|b|, h) && SameLeaves(a, b, h, k)
    requires pos < Width(|a|, h + 1) && pos < Width(|b|, h + 1)
    requires k + 1 < Width(|a|, h) <==> k + 1 < Width(|b|, h)
    requires k + 1 < Width(|a|, h) ==> SameLeaves(a, b, h, k + 1)
    ensures SameLeaves(a, b, h + 1, pos)
  {
    LeavesSplit(|a|, h + 1, pos);
    LeavesSplit(|b|, h + 1, pos);
  }

  /** Trees of different heights have different roots, unless the first leaf is itself the hash of a pair. */
  lemma {:induction false} HeightsShow(pair: Pair, a: seq<Hash>, b: seq<Hash>, h: nat, g: nat)
    requires Injective(pair) && a != [] && b != [] && h < g && forall x, y :: pair(x, y) != a[0]
    ensures Node(pair, a, h, 0) != Node(pair, b, g, 0)
  {
    WidthPositive(|a|, h);
    WidthPositive(|b|, g - 1);
    LeftOfTwo(pair, b, g - 1, 0, Sibling(|b|, g - 1, 0));
    if h > 0 {
      WidthPositive(|a|, h - 1);
      LeftOfTwo(pair, a, h - 1, 0, Sibling(|a|, h - 1, 0));
      HeightsShow(pair, a, b, h - 1, g - 1);
    }
  }

  lemma HeightMonotone(m: nat, n: nat)
    requires m <= n
    ensures Height(m) <= Height(n)
  {
    CompleteMonotone(m, n, Height(n));
  }

  /**
   Blocks with the same root have the same transactions, if the flag for duplicates is not set for the longer
   one, hashing pairs has no collisions and the first transaction id of the shorter one is no such hash.
   */
  lemma UnmutatedIsUnique(pair: Pair, a: seq<Hash>, b: seq<Hash>)
    requires Injective(pair) && a != [] && |a| <= |b| && (forall x, y :: pair(x, y) != a[0])
    requires Root(pair, a) == Root(pair, b) && !Mutated(pair, b, |b|)
    ensures a == b
  {
    var g, h := Height(|a|), Height(|b|);
    RootExists(|a|);
    RootExists(|b|);
    HeightMonotone(|a|, |b|);
    if g < h {
      HeightsShow(pair, a, b, g, h);
    }
    CompleteMonotone(|a|, |b|, h);
    SameNodeSameLeaves(pair, a, b, h, 0);
    LastMeetsFirst(|a|, h, 0);
    LastMeetsFirst(|b|, h, 0);
    FirstFormula(h, 0);
  }

  /** Without the flag that fails: a list and the same with its last transaction repeated. */
  lemma RepeatedSharesRoot(pair: Pair, x: Hash, y: Hash, z: Hash)
    ensures Root(pair, [x, y, z]) == Root(pair, [x, y, z, z]) && Mutated(pair, [x, y, z, z], 4)
  {
    var a, b := [x, y, z], [x, y, z, z];
    assert Width(3, 1) == 2 && Width(3, 2) == 1 && Width(4, 1) == 2 && Width(4, 2) == 1;
    assert Height(3) == 2 && Height(4) == 2;
    ParentOfTwo(pair, a, 1, 0);
    ParentOfTwo(pair, b, 1, 0);
    ParentOfTwo(pair, a, 0, 0);
    ParentOfOne(pair, a, 0, 2);
    ParentOfTwo(pair, b, 0, 0);
    ParentOfTwo(pair, b, 0, 2);
    assert Twins(pair, b, 4, 0, 2);
  }
}
