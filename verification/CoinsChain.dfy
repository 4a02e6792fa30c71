/**
 The coin views as blocks are connected to and disconnected from the tip, in any order and
 with writes to the database in between. What the tip shows depends only on the blocks of
 the chain, not on the way there.
 */
module CoinsChain {
  import opened CoinsModel
  import opened CoinsLayer
  import opened CoinsStack
  import opened CoinsBlocks
  import opened CoinsUndo
  import opened CoinsDisconnect

  datatype Block = Block(txs: seq<Tx>, hash: Hash)

  /** What a connected block leaves behind: the coins it spent and the root of the tree after it. */
  datatype Record = Record(undos: seq<seq<Coin>>, finalRoot: Hash)

  /** What the tip shows once the blocks are connected to the first one, in order. */
  ghost function After(root: Tree -> Hash, genesis: Hash, blocks: seq<Block>): View {
    if blocks == [] then View(map[], map[root(EMPTY_TREE) := EMPTY_TREE], map[], genesis, root(EMPTY_TREE)) else
    var b := blocks[|blocks| - 1];
    Connected(root, After(root, genesis, blocks[..|blocks| - 1]), b.txs, b.hash)
  }

  /** The anchors of a chain nest, and its last block is the best one. */
  lemma {:induction false} ChainNests(root: Tree -> Hash, genesis: Hash, blocks: seq<Block>)
    requires Injective(root) && NonNull(root)
    ensures Nested(root, After(root, genesis, blocks))
    ensures After(root, genesis, blocks).block == TipHash(genesis, blocks)
  {
    if blocks != [] {
      var b := blocks[|blocks| - 1];
      ChainNests(root, genesis, blocks[..|blocks| - 1]);
      ConnectedNests(root, After(root, genesis, blocks[..|blocks| - 1]), b.txs, b.hash);
    }
  }

  function TipHash(genesis: Hash, blocks: seq<Block>): Hash {
    if blocks == [] then genesis else blocks[|blocks| - 1].hash
  }

  /** The i-th block has a hash, fitted the chain before it, and its record is right. */
  ghost predicate RecordedAt(root: Tree -> Hash, genesis: Hash, blocks: seq<Block>, records: seq<Record>, i: nat)
    requires i < |blocks| == |records|
  {
    var v, w := After(root, genesis, blocks[..i]), After(root, genesis, blocks[..i + 1]);
    && blocks[i].hash != 0 && records[i].finalRoot == w.anchor
    && CameFrom(root, v, w, blocks[i].txs, blocks[i].hash, records[i].undos)
  }

  ghost predicate Recorded(root: Tree -> Hash, genesis: Hash, blocks: seq<Block>, records: seq<Record>) {
    |blocks| == |records| && forall i :: 0 <= i < |blocks| ==> RecordedAt(root, genesis, blocks, records, i)
  }

  lemma RecordNext(root: Tree -> Hash, genesis: Hash, blocks: seq<Block>, records: seq<Record>, b: Block, r: Record)
    requires Recorded(root, genesis, blocks, records)
    requires RecordedAt(root, genesis, blocks + [b], records + [r], |blocks|)
    ensures Recorded(root, genesis, blocks + [b], records + [r])
  {
    forall i | 0 <= i < |blocks|
      ensures RecordedAt(root, genesis, blocks + [b], records + [r], i)
    {
      assert (blocks + [b])[..i] == blocks[..i] && (blocks + [b])[..i + 1] == blocks[..i + 1];
      assert RecordedAt(root, genesis, blocks, records, i);
    }
  }

  lemma RecordLast(root: Tree -> Hash, genesis: Hash, blocks: seq<Block>, records: seq<Record>)
    requires Recorded(root, genesis, blocks, records) && blocks != []
    ensures var n := |blocks| - 1; Recorded(root, genesis, blocks[..n], records[..n])
  {
    var n := |blocks| - 1;
    forall i | 0 <= i < n
      ensures RecordedAt(root, genesis, blocks[..n], records[..n], i)
    {
      assert blocks[..n][..i] == blocks[..i] && blocks[..n][..i + 1] == blocks[..i + 1];
      assert RecordedAt(root, genesis, blocks, records, i);
    }
  }

  /** A block that fits the chain can be recorded. */
  lemma Remembers(root: Tree -> Hash, genesis: Hash, blocks: seq<Block>, records: seq<Record>, b: Block,
                  undos: seq<seq<Coin>>)
    requires Injective(root) && NonNull(root) && Recorded(root, genesis, blocks, records) && b.hash != 0
    requires var v := After(root, genesis, blocks).coins;
      && Unspent(v) && BlockFits(v, b.txs) && BlockWhole(v, b.txs) && |undos| == |b.txs| && BlockUndoes(v, b.txs, undos)
    ensures After(root, genesis, blocks + [b]) == Connected(root, After(root, genesis, blocks), b.txs, b.hash)
    ensures Recorded(root, genesis, blocks + [b], records + [Record(undos, After(root, genesis, blocks + [b]).anchor)])
  {
    var r := Record(undos, After(root, genesis, blocks + [b]).anchor);
    ChainNests(root, genesis, blocks);
    assert (blocks + [b])[..|blocks|] == blocks && (blocks + [b])[..|blocks| + 1] == blocks + [b];
    assert RecordedAt(root, genesis, blocks + [b], records + [r], |blocks|);
    RecordNext(root, genesis, blocks, records, b, r);
  }

  /** The records tell what the last block came from. */
  lemma RecordOfTip(root: Tree -> Hash, genesis: Hash, blocks: seq<Block>, records: seq<Record>)
    requires Injective(root) && NonNull(root) && genesis != 0 && Recorded(root, genesis, blocks, records)
    requires blocks != []
    ensures var n := |blocks| - 1; var v := After(root, genesis, blocks[..n]);
      && CameFrom(root, v, After(root, genesis, blocks), blocks[n].txs, blocks[n].hash, records[n].undos)
      && v.anchor == (if n == 0 then root(EMPTY_TREE) else records[n - 1].finalRoot)
      && v.block == TipHash(genesis, blocks[..n]) != 0
  {
    var n := |blocks| - 1;
    ChainNests(root, genesis, blocks[..n]);
    assert blocks[..n + 1] == blocks;
    assert RecordedAt(root, genesis, blocks, records, n);
    if n > 0 { assert RecordedAt(root, genesis, blocks, records, n - 1); }
  }

  /** Connect a block to the recorded ones. */
  method ConnectNext(s: Stack, ghost genesis: Hash, ghost blocks: seq<Block>, ghost records: seq<Record>, b: Block)
    returns (record: Record)
    requires s.Valid() && |s.layers| == 1 && NonNull(s.root) && b.hash != 0
    requires Recorded(s.root, genesis, blocks, records) && s.top == After(s.root, genesis, blocks)
    requires BlockFits(s.top.coins, b.txs) && BlockWhole(s.top.coins, b.txs)
    modifies s`layers, s`below, s`top
    ensures s.Valid() && |s.layers| == 1 && s.layers[0].block != 0 && s.below == old(s.below)
    ensures s.top == After(s.root, genesis, blocks + [b])
    ensures Recorded(s.root, genesis, blocks + [b], records + [record])
  {
    ChainNests(s.root, genesis, blocks);
    BlockBelow(s);
    var undos := ConnectTip(s, b.txs, b.hash);
    var finalRoot := s.GetBestAnchor(1);
    Remembers(s.root, genesis, blocks, records, b, undos);
    record := Record(undos, finalRoot);
  }

  /** Disconnect the last of the recorded blocks. */
  method DisconnectLast(s: Stack, genesis: Hash, blocks: seq<Block>, records: seq<Record>) returns (res: Disconnected)
    requires s.Valid() && |s.layers| == 1 && NonNull(s.root) && genesis != 0
    requires Recorded(s.root, genesis, blocks, records) && blocks != [] && s.top == After(s.root, genesis, blocks)
    modifies s`layers, s`below, s`top
    ensures s.Valid() && |s.layers| == 1 && s.layers[0].block != 0
    ensures res == Clean && s.top == After(s.root, genesis, blocks[..|blocks| - 1]) && s.below == old(s.below)
  {
    var n := |blocks| - 1;
    RecordOfTip(s.root, genesis, blocks, records);
    var prevRoot := if n == 0 then s.root(EMPTY_TREE) else records[n - 1].finalRoot;
    res := DisconnectTip(s, blocks[n].txs, records[n].undos, prevRoot, TipHash(genesis, blocks[..n]),
                         After(s.root, genesis, blocks[..n]), blocks[n].hash);
  }

  class ChainState {
    const stack: Stack
    const genesis: Hash
    var blocks: seq<Block>
    var records: seq<Record>

    ghost predicate Valid()
      reads this, stack
    {
      && stack.Valid() && |stack.layers| == 1 && stack.layers[0].block != 0
      && NonNull(stack.root) && genesis != 0
      && Recorded(stack.root, genesis, blocks, records)
      && stack.top == After(stack.root, genesis, blocks)
    }

    /** Only the first block, whose outputs cannot be spent. */
    constructor (root: Tree -> Hash, genesis: Hash)
      requires Injective(root) && NonNull(root) && genesis != 0
      ensures Valid() && blocks == [] && this.genesis == genesis && stack.root == root && fresh(stack)
    {
      this.genesis := genesis;
      stack := new Stack(root);
      blocks, records := [], [];
      new;
      stack.Push();
      stack.SetBestBlock(genesis);
    }

    /** Connect a block whose transactions fit the tip. */
    method Connect(txs: seq<Tx>, hash: Hash)
      requires Valid() && hash != 0 && BlockFits(stack.top.coins, txs) && BlockWhole(stack.top.coins, txs)
      modifies this, stack
      ensures Valid() && blocks == old(blocks) + [Block(txs, hash)] && stack.below == old(stack.below)
    {
      var record := ConnectNext(stack, genesis, blocks, records, Block(txs, hash));
      blocks, records := blocks + [Block(txs, hash)], records + [record];
    }

    /** Disconnect the tip: cleanly, and the chain is what it was before it. */
    method Disconnect() returns (res: Disconnected)
      requires Valid() && blocks != []
      modifies this, stack
      ensures Valid() && res == Clean && blocks == old(blocks)[..|old(blocks)| - 1] && stack.below == old(stack.below)
    {
      var n := |blocks| - 1;
      RecordLast(stack.root, genesis, blocks, records);
      res := DisconnectLast(stack, genesis, blocks, records);
      blocks, records := blocks[..n], records[..n];
    }

    /** Write the tip out: the database then shows the chain too. */
    method Flush()
      requires Valid()
      modifies stack
      ensures Valid() && stack.Base() == After(stack.root, genesis, blocks)
    {
      ChainNests(stack.root, genesis, blocks);
      FlushTip(stack);
    }
  }
}
