/**
 CPartialMerkleTree as an object: building and extracting by recursion over its fields,
 and its flag bits as bytes, eight to a byte, least significant bit first.
 */
module PartialMerkle {
  import opened Powers
  import opened Bits8
  import opened MerkleModel
  import opened Merkle
  import opened MerkleTheorems

  /** The bits of the bytes, in order. */
  function Unpacked(bytes: seq<Byte>): (bits: seq<bool>)
    ensures |bits| == 8 * |bytes|
  {
    seq(8 * |bytes|, p requires 0 <= p < 8 * |bytes| => Bit(bytes[p / 8], p % 8))
  }

  /** The bytes hold the first `done` bits, and zeros after them. */
  ghost predicate Holds(bytes: seq<Byte>, bits: seq<bool>, done: nat)
    requires done <= |bits|
  {
    forall p :: 0 <= p < 8 * |bytes| ==> (Bit(bytes[p / 8], p % 8) <==> p < done && bits[p])
  }

  /** One byte gains one bit; every other bit stays. */
  lemma HoldsNextAt(bytes: seq<Byte>, bits: seq<bool>, done: nat, p: nat, x: Byte)
    requires done < |bits| <= 8 * |bytes| && p < 8 * |bytes| && bits[done]
    requires x == bytes[done / 8] | ((1 as Byte) << (done % 8))
    requires Bit(bytes[p / 8], p % 8) <==> p < done && bits[p]
    ensures Bit(if p / 8 == done / 8 then x else bytes[p / 8], p % 8) <==> p < done + 1 && bits[p]
  {
    if p / 8 == done / 8 {
      SetBit(bytes[done / 8], done % 8, p % 8);
    }
  }

  lemma HoldsNext(bytes: seq<Byte>, bits: seq<bool>, done: nat, x: Byte)
    requires done < |bits| <= 8 * |bytes| && bits[done] && Holds(bytes, bits, done)
    requires x == bytes[done / 8] | ((1 as Byte) << (done % 8))
    ensures Holds(bytes[done / 8 := x], bits, done + 1)
  {
    forall p | 0 <= p < 8 * |bytes|
      ensures Bit(bytes[done / 8 := x][p / 8], p % 8) <==> p < done + 1 && bits[p]
    {
      HoldsNextAt(bytes, bits, done, p, x);
    }
  }

  /** Flag bits to bytes. */
  method Pack(bits: seq<bool>) returns (bytes: seq<Byte>)
    ensures |bytes| == (|bits| + 7) / 8
    ensures PaddedTo(bits, Unpacked(bytes))
    ensures forall p :: |bits| <= p < 8 * |bytes| ==> !Unpacked(bytes)[p]
  {
    bytes := seq((|bits| + 7) / 8, _ => 0);
    for p := 0 to |bits|
      invariant |bytes| == (|bits| + 7) / 8 && Holds(bytes, bits, p)
    {
      if bits[p] {
        var x := bytes[p / 8] | ((1 as Byte) << (p % 8));
        HoldsNext(bytes, bits, p, x);
        bytes := bytes[p / 8 := x];
      }
    }
  }

  /** Bytes to flag bits. */
  method Unpack(bytes: seq<Byte>) returns (bits: seq<bool>)
    ensures bits == Unpacked(bytes)
  {
    bits := seq(8 * |bytes|, _ => false);
    for p := 0 to |bits|
      invariant |bits| == 8 * |bytes|
      invariant forall q :: 0 <= q < p ==> bits[q] == Bit(bytes[q / 8], q % 8)
    {
      bits := bits[p := Bit(bytes[p / 8], p % 8)];
    }
  }

  /** The encoding of a node with a match below it: its flag, then its children in order. */
  lemma AppendChildren(pair: Pair, txids: seq<Hash>, match_: seq<bool>, h: nat, pos: nat, s: Stream, t: Stream)
    requires |match_| == |txids| && h > 0 && pos < Width(|txids|, h) && ParentOfMatch(match_, h, pos)
    requires t == Stream(s.bits + [true], s.hashes)
    ensures s.Then(Build(pair, txids, match_, h, pos)) ==
      var left := t.Then(Build(pair, txids, match_, h - 1, 2 * pos));
      if 2 * pos + 1 < Width(|txids|, h - 1) then left.Then(Build(pair, txids, match_, h - 1, 2 * pos + 1)) else left
  {
    var head := Stream([true], []);
    var left := Build(pair, txids, match_, h - 1, 2 * pos);
    BuildChildren(pair, txids, match_, h, pos, left);
    ThenAssociates(s, head, left);
    if 2 * pos + 1 < Width(|txids|, h - 1) {
      ThenAssociates(s, head.Then(left), Build(pair, txids, match_, h - 1, 2 * pos + 1));
    }
  }

  lemma NothingThen(t: Stream)
    ensures Stream([], []).Then(t) == t
  {
    assert [] + t.bits == t.bits && [] + t.hashes == t.hashes;
  }

  lemma ThenAssociates(s: Stream, t: Stream, u: Stream)
    ensures s.Then(t).Then(u) == s.Then(t.Then(u))
  {
    assert s.bits + t.bits + u.bits == s.bits + (t.bits + u.bits);
    assert s.hashes + t.hashes + u.hashes == s.hashes + (t.hashes + u.hashes);
  }

  function IfLess(a: nat, b: nat): nat { if a < b then a else b }

  /** The leaves of a node end at the next multiple of the node's span, or at the end of the list. */
  lemma NextStart(n: nat, h: nat, pos: nat)
    requires pos < Width(n, h)
    ensures First(h, pos) == pos * Pow(2, h) && Last(n, h, pos) == IfLess((pos + 1) * Pow(2, h), n)
  {
    FirstFormula(h, pos);
    FirstFormula(h, pos + 1);
    LastMeetsFirst(n, h, pos);
    if pos + 1 < Width(n, h) {
      LeavesOfNode(n, h, pos + 1);
    } else {
      WidthIsCeil(n, h);
    }
  }

  /** A traversal's hash, cursors and matches, appended to those already there. */
  ghost predicate Reads(r: Step, hash: Hash, bitsUsed: nat, hashesUsed: nat, before: seq<Hash>, matches: seq<Hash>) {
    hash == r.hash && bitsUsed == r.bitsUsed && hashesUsed == r.hashesUsed && matches == before + r.matches
  }

  lemma ReadsJoin(pair: Pair, l: Step, r: Step, left: Hash, right: Hash, bitsUsed: nat, hashesUsed: nat,
                  before: seq<Hash>, between: seq<Hash>, matches: seq<Hash>)
    requires left == l.hash && between == before + l.matches && Reads(r, right, bitsUsed, hashesUsed, between, matches)
    ensures Reads(l.Join(pair, r), pair(left, right), bitsUsed, hashesUsed, before, matches)
  {
    assert before + l.matches + r.matches == before + (l.matches + r.matches);
  }

  class Tree {
    var nTransactions: nat
    var vBits: seq<bool>
    var vHash: seq<Hash>
    var fBad: bool

    ghost function Encoding(): Stream
      reads this
    {
      Stream(vBits, vHash)
    }

    /** The number of nodes at a height. */
    method CalcTreeWidth(height: nat) returns (w: nat)
      ensures w == Width(nTransactions, height)
    {
      WidthFormula(nTransactions, height);
      w := (nTransactions + Pow(2, height) - 1) / Pow(2, height);
    }

    method TreeHeight() returns (height: nat)
      ensures height == Height(nTransactions)
    {
      height := 0;
      var w := CalcTreeWidth(height);
      while w > 1
        invariant w == Width(nTransactions, height)
        invariant Height(nTransactions) == HeightFrom(nTransactions, height)
        decreases w
      {
        height := height + 1;
        w := CalcTreeWidth(height);
      }
    }

    /** Is the node an ancestor of, or itself, a matched leaf? */
    method MatchBelowNode(height: nat, pos: nat, vMatch: seq<bool>) returns (found: bool)
      requires nTransactions == |vMatch| && pos < Width(|vMatch|, height)
      ensures found <==> ParentOfMatch(vMatch, height, pos)
    {
      LeavesOfNode(|vMatch|, height, pos);
      LastMeetsFirst(|vMatch|, height, pos);
      NextStart(|vMatch|, height, pos);
      found := false;
      var p := pos * Pow(2, height);
      ghost var first := p;
      while p < (pos + 1) * Pow(2, height) && p < nTransactions
        invariant first <= p <= Last(|vMatch|, height, pos) == IfLess((pos + 1) * Pow(2, height), nTransactions)
        invariant found <==> AnyMatch(vMatch, first, p)
      {
        found := found || vMatch[p];
        p := p + 1;
      }
    }

    /** Appends the depth-first encoding of a subtree. */
    method TraverseAndBuild(pair: Pair, height: nat, pos: nat, vTxid: seq<Hash>, vMatch: seq<bool>)
      requires nTransactions == |vTxid| == |vMatch| && pos < Width(|vTxid|, height)
      modifies this`vBits, this`vHash
      ensures Encoding() == old(Encoding()).Then(Build(pair, vTxid, vMatch, height, pos))
      decreases height
    {
      var flag := MatchBelowNode(height, pos, vMatch);
      vBits := vBits + [flag];
      if height == 0 || !flag {
        vHash := vHash + [CalcHash(pair, vTxid, height, pos)];
      } else {
        AppendChildren(pair, vTxid, vMatch, height, pos, old(Encoding()), Encoding());
        TraverseAndBuild(pair, height - 1, 2 * pos, vTxid, vMatch);
        var w := CalcTreeWidth(height - 1);
        if 2 * pos + 1 < w {
          TraverseAndBuild(pair, height - 1, 2 * pos + 1, vTxid, vMatch);
        }
      }
    }

    /** A tree over the given transactions that selects the matched ones. */
    constructor (pair: Pair, vTxid: seq<Hash>, vMatch: seq<bool>)
      requires |vTxid| == |vMatch| > 0
      ensures nTransactions == |vTxid| && !fBad
      ensures Width(|vTxid|, Height(|vTxid|)) == 1
      ensures Encoding() == Build(pair, vTxid, vMatch, Height(|vTxid|), 0)
    {
      nTransactions, fBad, vBits, vHash := |vTxid|, false, [], [];
      new;
      var height := TreeHeight();
      RootExists(nTransactions);
      ghost var t := Build(pair, vTxid, vMatch, height, 0);
      TraverseAndBuild(pair, height, 0, vTxid, vMatch);
      NothingThen(t);
    }

    /** Reads a subtree from the given bit and hash on, appending to the matches. */
    method TraverseAndExtract(pair: Pair, height: nat, pos: nat, nBits: nat, nHashes: nat, vMatch: seq<Hash>)
      returns (hash: Hash, nBitsUsed: nat, nHashUsed: nat, matches: seq<Hash>)
      modifies this`fBad
      ensures Reads(Traverse(pair, nTransactions, Encoding(), height, pos, nBits, nHashes), hash, nBitsUsed, nHashUsed,
        vMatch, matches)
      ensures fBad == (old(fBad) || Traverse(pair, nTransactions, Encoding(), height, pos, nBits, nHashes).bad)
      decreases height, 2
    {
      hash, nBitsUsed, nHashUsed, matches := ZERO, nBits, nHashes, vMatch;
      if nBitsUsed >= |vBits| {
        fBad := true;
        return;
      }
      var flag := vBits[nBitsUsed];
      nBitsUsed := nBitsUsed + 1;
      if height == 0 || !flag {
        if nHashUsed >= |vHash| {
          fBad := true;
          return;
        }
        hash, nHashUsed := vHash[nHashUsed], nHashUsed + 1;
        if height == 0 && flag {
          matches := matches + [hash];
        }
        return;
      }
      hash, nBitsUsed, nHashUsed, matches := ExtractChildren(pair, height, pos, nBits, nHashes, vMatch);
    }

    /** Reads the children of a node whose flag bit is set. */
    method ExtractChildren(pair: Pair, height: nat, pos: nat, nBits: nat, nHashes: nat, vMatch: seq<Hash>)
      returns (hash: Hash, nBitsUsed: nat, nHashUsed: nat, matches: seq<Hash>)
      requires height > 0 && nBits < |vBits| && vBits[nBits]
      modifies this`fBad
      ensures Reads(Traverse(pair, nTransactions, Encoding(), height, pos, nBits, nHashes), hash, nBitsUsed, nHashUsed,
        vMatch, matches)
      ensures fBad == (old(fBad) || Traverse(pair, nTransactions, Encoding(), height, pos, nBits, nHashes).bad)
      decreases height, 1
    {
      var left;
      ghost var s, n := Encoding(), nTransactions;
      ghost var l := Traverse(pair, n, s, height - 1, 2 * pos, nBits + 1, nHashes);
      left, nBitsUsed, nHashUsed, matches := TraverseAndExtract(pair, height - 1, 2 * pos, nBits + 1, nHashes, vMatch);
      var w := CalcTreeWidth(height - 1);
      if 2 * pos + 1 < w {
        hash, nBitsUsed, nHashUsed, matches :=
          ExtractRight(pair, height, pos, left, nBitsUsed, nHashUsed, matches, nBits, nHashes, vMatch, l);
      } else {
        hash := pair(left, left);
        TraverseOne(pair, n, s, height, pos, nBits, nHashes, l);
      }
    }

    /** Reads the right child, whose left sibling has been read with result l. */
    method ExtractRight(pair: Pair, height: nat, pos: nat, left: Hash, bits: nat, hashes: nat, found: seq<Hash>,
                        ghost nBits: nat, ghost nHashes: nat, ghost vMatch: seq<Hash>, ghost l: Step)
      returns (hash: Hash, nBitsUsed: nat, nHashUsed: nat, matches: seq<Hash>)
      requires height > 0 && nBits < |vBits| && vBits[nBits] && 2 * pos + 1 < Width(nTransactions, height - 1)
      requires l == Traverse(pair, nTransactions, Encoding(), height - 1, 2 * pos, nBits + 1, nHashes)
      requires Reads(l, left, bits, hashes, vMatch, found)
      modifies this`fBad
      ensures Reads(Traverse(pair, nTransactions, Encoding(), height, pos, nBits, nHashes), hash, nBitsUsed, nHashUsed,
        vMatch, matches)
      ensures (fBad || l.bad) == (old(fBad) ||
        Traverse(pair, nTransactions, Encoding(), height, pos, nBits, nHashes).bad)
      ensures old(fBad) ==> fBad
      decreases height, 0
    {
      ghost var s, n := Encoding(), nTransactions;
      var right;
      ghost var r := Traverse(pair, n, s, height - 1, 2 * pos + 1, bits, hashes);
      right, nBitsUsed, nHashUsed, matches := TraverseAndExtract(pair, height - 1, 2 * pos + 1, bits, hashes, found);
      TraverseTwo(pair, n, s, height, pos, nBits, nHashes, l, r);
      ReadsJoin(pair, l, r, left, right, nBitsUsed, nHashUsed, vMatch, found, matches);
      hash := pair(left, right);
    }

    /** The Merkle root and the matched transactions, or zero. */
    method ExtractMatches(pair: Pair) returns (root: Hash, vMatch: seq<Hash>)
      modifies this`fBad
      ensures var e := Extract(pair, nTransactions, Encoding(), old(fBad)); root == e.root && vMatch == e.matches
      ensures fBad == (old(fBad) || (Sane(nTransactions, Encoding())
        && Traverse(pair, nTransactions, Encoding(), Height(nTransactions), 0, 0, 0).bad))
    {
      root, vMatch := ZERO, [];
      if nTransactions == 0 || nTransactions > MAX_TRANSACTIONS || |vHash| > nTransactions || |vBits| < |vHash| {
        return;
      }
      var height := TreeHeight();
      var hash, nBitsUsed, nHashUsed;
      hash, nBitsUsed, nHashUsed, vMatch := TraverseAndExtract(pair, height, 0, 0, 0, vMatch);
      if fBad || (nBitsUsed + 7) / 8 != (|vBits| + 7) / 8 || nHashUsed != |vHash| {
        return;
      }
      root := hash;
    }

    /** Reads the fields back from the wire. */
    method Deserialize(total: nat, hashes: seq<Hash>, bytes: seq<Byte>)
      modifies this
      ensures nTransactions == total && !fBad && Encoding() == Stream(Unpacked(bytes), hashes)
    {
      nTransactions, vHash, fBad := total, hashes, false;
      vBits := Unpack(bytes);
    }
  }

  /** What one node builds, sends and another reads back and extracts. */
  method SendAndExtract(pair: Pair, vTxid: seq<Hash>, vMatch: seq<bool>) returns (root: Hash, matches: seq<Hash>)
    requires 0 < |vTxid| == |vMatch| <= MAX_TRANSACTIONS
    ensures root == Root(pair, vTxid) && matches == Matched(vTxid, vMatch, 0, |vTxid|)
  {
    var sender := new Tree(pair, vTxid, vMatch);
    var bytes := Pack(sender.vBits);
    var receiver := new Tree(pair, vTxid, vMatch);
    receiver.Deserialize(sender.nTransactions, sender.vHash, bytes);
    RoundTrip(pair, vTxid, vMatch, Unpacked(bytes));
    root, matches := receiver.ExtractMatches(pair);
  }
}
