/**
 Partial Merkle trees (BIP 37, "Partial Merkle branch format"): building one from a list
 of transaction ids and a selection, serializing its flag bits, and extracting the
 selection together with the Merkle root.
 */
module Merkle {
  import opened MerkleModel

  const MAX_BLOCK_SIZE: nat := 2000000
  const MAX_TRANSACTIONS: nat := MAX_BLOCK_SIZE / 60

  // ---- building

  datatype Stream = Stream(bits: seq<bool>, hashes: seq<Hash>) {
    function Then(s: Stream): Stream { Stream(bits + s.bits, hashes + s.hashes) }
  }

  /** Is the node an ancestor of, or itself, a matched leaf? */
  predicate ParentOfMatch(match_: seq<bool>, h: nat, pos: nat)
    requires pos < Width(|match_|, h)
  {
    LeavesOfNode(|match_|, h, pos);
    AnyMatch(match_, First(h, pos), Last(|match_|, h, pos))
  }

  /** The depth-first encoding of the subtree at (h, pos). */
  function Build(pair: Pair, txids: seq<Hash>, match_: seq<bool>, h: nat, pos: nat): Stream
    requires |match_| == |txids| && pos < Width(|txids|, h)
    decreases h
  {
    var flag := ParentOfMatch(match_, h, pos);
    if h == 0 || !flag then Stream([flag], [CalcHash(pair, txids, h, pos)]) else
    var left := Stream([flag], []).Then(Build(pair, txids, match_, h - 1, 2 * pos));
    if 2 * pos + 1 < Width(|txids|, h - 1) then left.Then(Build(pair, txids, match_, h - 1, 2 * pos + 1)) else left
  }

  // ---- extracting

  datatype Step = Step(bad: bool, hash: Hash, bitsUsed: nat, hashesUsed: nat, matches: seq<Hash>) {
    function Join(pair: Pair, right: Step): Step {
      Step(bad || right.bad, pair(hash, right.hash), right.bitsUsed, right.hashesUsed, matches + right.matches)
    }
  }

  /** What one traversal from (h, pos) consumes, returns and collects. */
  function Traverse(pair: Pair, n: nat, s: Stream, h: nat, pos: nat, b: nat, k: nat): (r: Step)
    decreases h
  {
    if b >= |s.bits| then Step(true, ZERO, b, k, [])
    else if h == 0 || !s.bits[b] then
      if k >= |s.hashes| then Step(true, ZERO, b + 1, k, [])
      else Step(false, s.hashes[k], b + 1, k + 1, if h == 0 && s.bits[b] then [s.hashes[k]] else [])
    else
      var left := Traverse(pair, n, s, h - 1, 2 * pos, b + 1, k);
      if 2 * pos + 1 < Width(n, h - 1) then
        var right := Traverse(pair, n, s, h - 1, 2 * pos + 1, left.bitsUsed, left.hashesUsed);
        left.Join(pair, right)
      else left.(hash := pair(left.hash, left.hash))
  }

  datatype Extracted = Extracted(root: Hash, matches: seq<Hash>, ok: bool)

  /** The guards before any traversal. */
  predicate Sane(n: nat, s: Stream) {
    0 < n <= MAX_TRANSACTIONS && |s.hashes| <= n && |s.hashes| <= |s.bits|
  }

  /** ExtractMatches: ok tells whether every guard passed; otherwise the root is ZERO. */
  function Extract(pair: Pair, n: nat, s: Stream, wasBad: bool): Extracted {
    if !Sane(n, s) then Extracted(ZERO, [], false) else
    var r := Traverse(pair, n, s, Height(n), 0, 0, 0);
    var ok := !wasBad && !r.bad && (r.bitsUsed + 7) / 8 == (|s.bits| + 7) / 8 && r.hashesUsed == |s.hashes|;
    Extracted(if ok then r.hash else ZERO, r.matches, ok)
  }

  // ---- extracting what was built

  /** The stream s contains t at bit b and hash k. */
  ghost predicate Contains(s: Stream, b: nat, k: nat, t: Stream) {
    && b + |t.bits| <= |s.bits| && (forall i :: 0 <= i < |t.bits| ==> s.bits[b + i] == t.bits[i])
    && k + |t.hashes| <= |s.hashes| && (forall i :: 0 <= i < |t.hashes| ==> s.hashes[k + i] == t.hashes[i])
  }

  lemma ContainsSplit(s: Stream, b: nat, k: nat, t: Stream, u: Stream)
    requires Contains(s, b, k, t.Then(u))
    ensures Contains(s, b, k, t) && Contains(s, b + |t.bits|, k + |t.hashes|, u)
  {
    var tu := t.Then(u);
    forall i | 0 <= i < |t.bits| ensures s.bits[b + i] == t.bits[i] {
      assert tu.bits[i] == t.bits[i];
    }
    forall i | 0 <= i < |u.bits| ensures s.bits[b + |t.bits| + i] == u.bits[i] {
      assert tu.bits[|t.bits| + i] == u.bits[i];
    }
    forall i | 0 <= i < |t.hashes| ensures s.hashes[k + i] == t.hashes[i] {
      assert tu.hashes[i] == t.hashes[i];
    }
    forall i | 0 <= i < |u.hashes| ensures s.hashes[k + |t.hashes| + i] == u.hashes[i] {
      assert tu.hashes[|t.hashes| + i] == u.hashes[i];
    }
  }

  /** The traversal result for a subtree that the stream encodes at (b, k). */
  function Expected(pair: Pair, txids: seq<Hash>, match_: seq<bool>, h: nat, pos: nat, b: nat, k: nat): Step
    requires |match_| == |txids| && pos < Width(|txids|, h)
  {
    var t := Build(pair, txids, match_, h, pos);
    Step(false, CalcHash(pair, txids, h, pos), b + |t.bits|, k + |t.hashes|, MatchedAt(txids, match_, h, pos))
  }

  /** The matched leaves below a node, in order. */
  function MatchedAt(txids: seq<Hash>, match_: seq<bool>, h: nat, pos: nat): seq<Hash>
    requires |match_| == |txids| && pos < Width(|txids|, h)
  {
    LeavesOfNode(|txids|, h, pos);
    Matched(txids, match_, First(h, pos), Last(|txids|, h, pos))
  }

  /** A node whose hash is stored. */
  lemma TraverseStored(pair: Pair, txids: seq<Hash>, match_: seq<bool>, h: nat, pos: nat, s: Stream, b: nat, k: nat)
    requires |match_| == |txids| && pos < Width(|txids|, h) && Contains(s, b, k, Build(pair, txids, match_, h, pos))
    requires h == 0 || !ParentOfMatch(match_, h, pos)
    ensures Traverse(pair, |txids|, s, h, pos, b, k) == Expected(pair, txids, match_, h, pos, b, k)
  {
    var n := |txids|;
    var t := Build(pair, txids, match_, h, pos);
    LeavesOfNode(n, h, pos);
    NoneMatched(txids, match_, First(h, pos), Last(n, h, pos));
    assert s.bits[b + 0] == t.bits[0] && s.hashes[k + 0] == t.hashes[0];
    if h == 0 {
      LeafMatched(txids, match_, pos);
    }
  }

  /** The encoding of a node with a match below it: its flag, then its children in order. */
  lemma BuildChildren(pair: Pair, txids: seq<Hash>, match_: seq<bool>, h: nat, pos: nat, left: Stream)
    requires |match_| == |txids| && h > 0 && pos < Width(|txids|, h) && ParentOfMatch(match_, h, pos)
    requires left == Build(pair, txids, match_, h - 1, 2 * pos)
    ensures Build(pair, txids, match_, h, pos) ==
      var one := Stream([true], []).Then(left);
      if 2 * pos + 1 < Width(|txids|, h - 1) then one.Then(Build(pair, txids, match_, h - 1, 2 * pos + 1)) else one
  {
  }

  lemma ContainsOne(s: Stream, b: nat, k: nat, t: Stream, l: Stream)
    requires t == Stream([true], []).Then(l) && Contains(s, b, k, t)
    ensures b < |s.bits| && s.bits[b] && Contains(s, b + 1, k, l)
  {
    assert s.bits[b + 0] == t.bits[0];
    ContainsSplit(s, b, k, Stream([true], []), l);
  }

  lemma ContainsTwo(s: Stream, b: nat, k: nat, t: Stream, l: Stream, r: Stream)
    requires t == Stream([true], []).Then(l).Then(r) && Contains(s, b, k, t)
    ensures b < |s.bits| && s.bits[b] && Contains(s, b + 1, k, l) && Contains(s, b + 1 + |l.bits|, k + |l.hashes|, r)
  {
    var one := Stream([true], []).Then(l);
    ContainsSplit(s, b, k, one, r);
    ContainsOne(s, b, k, one, l);
  }

  /** The matches below a node are those below its children. */
  lemma MatchedBelow(txids: seq<Hash>, match_: seq<bool>, h: nat, pos: nat)
    requires |match_| == |txids| && h > 0 && pos < Width(|txids|, h)
    ensures 2 * pos < Width(|txids|, h - 1)
    ensures MatchedAt(txids, match_, h, pos) == MatchedAt(txids, match_, h - 1, 2 * pos)
      + if 2 * pos + 1 < Width(|txids|, h - 1) then MatchedAt(txids, match_, h - 1, 2 * pos + 1) else []
  {
    var n := |txids|;
    LeavesSplit(n, h, pos);
    LeavesOfNode(n, h - 1, 2 * pos);
    if 2 * pos + 1 < Width(n, h - 1) {
      LeavesOfNode(n, h - 1, 2 * pos + 1);
      MatchedSplit(txids, match_, First(h, pos), Last(n, h - 1, 2 * pos), Last(n, h, pos));
    }
  }

  /** The expected result of a node with a match below it, from those of its children. */
  lemma ExpectedTwo(pair: Pair, txids: seq<Hash>, match_: seq<bool>, h: nat, pos: nat, b: nat, k: nat, left: Step,
                    right: Step)
    requires |match_| == |txids| && h > 0 && pos < Width(|txids|, h) && ParentOfMatch(match_, h, pos)
    requires 2 * pos + 1 < Width(|txids|, h - 1)
    requires left == Expected(pair, txids, match_, h - 1, 2 * pos, b + 1, k)
    requires right == Expected(pair, txids, match_, h - 1, 2 * pos + 1, left.bitsUsed, left.hashesUsed)
    ensures Expected(pair, txids, match_, h, pos, b, k) == left.Join(pair, right)
  {
    MatchedBelow(txids, match_, h, pos);
  }

  lemma ExpectedOne(pair: Pair, txids: seq<Hash>, match_: seq<bool>, h: nat, pos: nat, b: nat, k: nat, left: Step)
    requires |match_| == |txids| && h > 0 && pos < Width(|txids|, h) && ParentOfMatch(match_, h, pos)
    requires 2 * pos + 1 >= Width(|txids|, h - 1)
    requires left == Expected(pair, txids, match_, h - 1, 2 * pos, b + 1, k)
    ensures Expected(pair, txids, match_, h, pos, b, k) == left.(hash := pair(left.hash, left.hash))
  {
    MatchedBelow(txids, match_, h, pos);
  }

  /** Reading back a subtree that the stream contains yields its hash and its matches. */
  lemma {:induction false} TraverseBuilt(pair: Pair, txids: seq<Hash>, match_: seq<bool>, h: nat, pos: nat,
                                         s: Stream, b: nat, k: nat, t: Stream)
    requires |match_| == |txids| && pos < Width(|txids|, h)
    requires t == Build(pair, txids, match_, h, pos) && Contains(s, b, k, t)
    ensures Traverse(pair, |txids|, s, h, pos, b, k) == Expected(pair, txids, match_, h, pos, b, k)
    decreases h, 1
  {
    if h == 0 || !ParentOfMatch(match_, h, pos) {
      TraverseStored(pair, txids, match_, h, pos, s, b, k);
    } else {
      var l := Build(pair, txids, match_, h - 1, 2 * pos);
      BuildChildren(pair, txids, match_, h, pos, l);
      if 2 * pos + 1 < Width(|txids|, h - 1) {
        var r := Build(pair, txids, match_, h - 1, 2 * pos + 1);
        ContainsTwo(s, b, k, t, l, r);
        BothBuilt(pair, txids, match_, h, pos, s, b, k, l, r);
      } else {
        OneBuilt(pair, txids, match_, h, pos, s, b, k, l);
      }
    }
  }

  lemma {:induction false} BothBuilt(pair: Pair, txids: seq<Hash>, match_: seq<bool>, h: nat, pos: nat,
                                     s: Stream, b: nat, k: nat, l: Stream, r: Stream)
    requires |match_| == |txids| && h > 0 && pos < Width(|txids|, h) && ParentOfMatch(match_, h, pos)
    requires 2 * pos + 1 < Width(|txids|, h - 1)
    requires l == Build(pair, txids, match_, h - 1, 2 * pos) && r == Build(pair, txids, match_, h - 1, 2 * pos + 1)
    requires b < |s.bits| && s.bits[b] && Contains(s, b + 1, k, l) && Contains(s, b + 1 + |l.bits|, k + |l.hashes|, r)
    ensures Traverse(pair, |txids|, s, h, pos, b, k) == Expected(pair, txids, match_, h, pos, b, k)
    decreases h, 0
  {
    TraverseBuilt(pair, txids, match_, h - 1, 2 * pos, s, b + 1, k, l);
    TraverseBuilt(pair, txids, match_, h - 1, 2 * pos + 1, s, b + 1 + |l.bits|, k + |l.hashes|, r);
    BothExpected(pair, txids, match_, h, pos, s, b, k, l);
  }

  lemma BothExpected(pair: Pair, txids: seq<Hash>, match_: seq<bool>, h: nat, pos: nat, s: Stream, b: nat, k: nat,
                     l: Stream)
    requires |match_| == |txids| && h > 0 && pos < Width(|txids|, h) && ParentOfMatch(match_, h, pos)
    requires 2 * pos + 1 < Width(|txids|, h - 1) && b < |s.bits| && s.bits[b]
    requires l == Build(pair, txids, match_, h - 1, 2 * pos)
    requires Traverse(pair, |txids|, s, h - 1, 2 * pos, b + 1, k) ==
      Expected(pair, txids, match_, h - 1, 2 * pos, b + 1, k)
    requires Traverse(pair, |txids|, s, h - 1, 2 * pos + 1, b + 1 + |l.bits|, k + |l.hashes|)
      == Expected(pair, txids, match_, h - 1, 2 * pos + 1, b + 1 + |l.bits|, k + |l.hashes|)
    ensures Traverse(pair, |txids|, s, h, pos, b, k) == Expected(pair, txids, match_, h, pos, b, k)
  {
    var left := Expected(pair, txids, match_, h - 1, 2 * pos, b + 1, k);
    assert left.bitsUsed == b + 1 + |l.bits| && left.hashesUsed == k + |l.hashes|;
    var right := Expected(pair, txids, match_, h - 1, 2 * pos + 1, left.bitsUsed, left.hashesUsed);
    TraverseTwo(pair, |txids|, s, h, pos, b, k, left, right);
    ExpectedTwo(pair, txids, match_, h, pos, b, k, left, right);
  }

  lemma {:induction false} OneBuilt(pair: Pair, txids: seq<Hash>, match_: seq<bool>, h: nat, pos: nat, s: Stream,
                                    b: nat, k: nat, l: Stream)
    requires |match_| == |txids| && h > 0 && pos < Width(|txids|, h) && ParentOfMatch(match_, h, pos)
    requires 2 * pos + 1 >= Width(|txids|, h - 1)
    requires l == Build(pair, txids, match_, h - 1, 2 * pos) && Contains(s, b, k, Stream([true], []).Then(l))
    ensures Traverse(pair, |txids|, s, h, pos, b, k) == Expected(pair, txids, match_, h, pos, b, k)
    decreases h, 0
  {
    ContainsOne(s, b, k, Stream([true], []).Then(l), l);
    TraverseBuilt(pair, txids, match_, h - 1, 2 * pos, s, b + 1, k, l);
    var left := Expected(pair, txids, match_, h - 1, 2 * pos, b + 1, k);
    TraverseOne(pair, |txids|, s, h, pos, b, k, left);
    ExpectedOne(pair, txids, match_, h, pos, b, k, left);
  }

  lemma TraverseTwo(pair: Pair, n: nat, s: Stream, h: nat, pos: nat, b: nat, k: nat, left: Step, right: Step)
    requires h > 0 && b < |s.bits| && s.bits[b] && 2 * pos + 1 < Width(n, h - 1)
    requires Traverse(pair, n, s, h - 1, 2 * pos, b + 1, k) == left
    requires Traverse(pair, n, s, h - 1, 2 * pos + 1, left.bitsUsed, left.hashesUsed) == right
    ensures Traverse(pair, n, s, h, pos, b, k) == left.Join(pair, right)
  {
  }

  lemma TraverseOne(pair: Pair, n: nat, s: Stream, h: nat, pos: nat, b: nat, k: nat, left: Step)
    requires h > 0 && b < |s.bits| && s.bits[b] && 2 * pos + 1 >= Width(n, h - 1)
    requires Traverse(pair, n, s, h - 1, 2 * pos, b + 1, k) == left
    ensures Traverse(pair, n, s, h, pos, b, k) == left.(hash := pair(left.hash, left.hash))
  {
  }

  lemma LeafMatched(txids: seq<Hash>, match_: seq<bool>, pos: nat)
    requires pos < |txids| == |match_|
    ensures Matched(txids, match_, pos, pos + 1) == if match_[pos] then [txids[pos]] else []
    ensures AnyMatch(match_, pos, pos + 1) <==> match_[pos]
  {
    assert Matched(txids, match_, pos, pos) == [];
  }
}
