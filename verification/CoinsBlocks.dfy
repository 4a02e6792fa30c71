/**
 Connecting a block through a stack of coin views: a cache per block over the tip cache,
 written into it when the block is valid and then dropped, and the tip cache written to
 the database. And what a flush loses.
 */
module CoinsBlocks {
  import opened CoinsModel
  import opened CoinsLayer
  import opened CoinsChanges
  import opened CoinsViews
  import opened CoinsStack

  type Output = (OutPoint, Coin)

  /** The outputs a transaction spends, those it creates, and its shielded outputs' note commitments. */
  datatype Tx = Tx(spends: seq<OutPoint>, creates: seq<Output>, commitments: seq<nat>)

  /** The coins after creating the outputs in turn; unspendable ones are never stored. */
  function Created(v: Coins, outs: seq<Output>): Coins {
    if outs == [] then v else
    var (o, coin) := outs[|outs| - 1];
    var w := Created(v, outs[..|outs| - 1]);
    if coin.IsUnspendable() then w else w[o := coin]
  }

  /** No output replaces a coin. */
  ghost predicate AllNew(v: Coins, outs: seq<Output>) {
    forall i :: 0 <= i < |outs| && !outs[i].1.IsUnspendable() ==> outs[i].0 !in Created(v, outs[..i])
  }

  ghost predicate NoneSpent(outs: seq<Output>) { forall i :: 0 <= i < |outs| ==> !outs[i].1.IsSpent() }

  /** The coins after spending the outputs in turn. */
  function Removed(v: Coins, spends: seq<OutPoint>): Coins {
    if spends == [] then v else Removed(v, spends[..|spends| - 1]) - {spends[|spends| - 1]}
  }

  function AfterTx(v: Coins, tx: Tx): Coins { Created(Removed(v, tx.spends), tx.creates) }

  function AfterBlock(v: Coins, txs: seq<Tx>): Coins {
    if txs == [] then v else AfterTx(AfterBlock(v, txs[..|txs| - 1]), txs[|txs| - 1])
  }

  ghost predicate TxFits(v: Coins, tx: Tx) { NoneSpent(tx.creates) && AllNew(Removed(v, tx.spends), tx.creates) }

  /** Every transaction fits the coins the ones before it leave. */
  ghost predicate BlockFits(v: Coins, txs: seq<Tx>) {
    forall i :: 0 <= i < |txs| ==> TxFits(AfterBlock(v, txs[..i]), txs[i])
  }

  /** The tree after the commitments of the transactions are appended to it. */
  function Grown(tree: Tree, txs: seq<Tx>): Tree {
    if txs == [] then tree else Grown(tree, txs[..|txs| - 1]) + txs[|txs| - 1].commitments
  }

  /** The tree of the best anchor. */
  function BestTree(v: View): Tree { if v.anchor in v.anchors then v.anchors[v.anchor] else EMPTY_TREE }

  /** What the tip shows once the block is connected. */
  function Connected(root: Tree -> Hash, v: View, txs: seq<Tx>, hash: Hash): View {
    Applied(root, v, txs, Grown(BestTree(v), txs), hash)
  }

  /** The view with the coins of the block, its tree and its hash. */
  function Applied(root: Tree -> Hash, v: View, txs: seq<Tx>, tree: Tree, hash: Hash): View {
    var anchors := if v.anchor == root(tree) then v.anchors else v.anchors[root(tree) := tree];
    View(AfterBlock(v.coins, txs), anchors, v.nullifiers, hash, root(tree))
  }

  predicate CreatesAt(outs: seq<Output>, i: nat, o: OutPoint)
    requires i < |outs|
  {
    outs[i].0 == o && !outs[i].1.IsUnspendable()
  }

  /** Creating outputs adds exactly those that can be spent. */
  lemma {:induction false} CreatedAre(v: Coins, outs: seq<Output>, o: OutPoint)
    ensures o in Created(v, outs) <==> o in v || exists i :: 0 <= i < |outs| && CreatesAt(outs, i, o)
  {
    if outs != [] {
      var n := |outs| - 1;
      CreatedAre(v, outs[..n], o);
      assert forall i :: 0 <= i < n ==> CreatesAt(outs[..n], i, o) == CreatesAt(outs, i, o);
      assert CreatesAt(outs, n, o) ==> o in Created(v, outs);
    }
  }

  /** Spending removes exactly the outputs spent. */
  lemma {:induction false} RemovedAre(v: Coins, spends: seq<OutPoint>, o: OutPoint)
    ensures o in Removed(v, spends) <==> o in v && o !in spends
    ensures o in Removed(v, spends) ==> Removed(v, spends)[o] == v[o]
  {
    if spends != [] {
      RemovedAre(v, spends[..|spends| - 1], o);
      assert spends == spends[..|spends| - 1] + [spends[|spends| - 1]];
    }
  }

  /** Is coin what the view v has at o; a spent coin if it has none? */
  ghost predicate Taken(v: Coins, o: OutPoint, coin: Coin) { if o in v then coin == v[o] else coin.IsSpent() }

  /** undo holds the coins that the first |undo| spends took from v, one after the other. */
  ghost predicate Undoes(v: Coins, spends: seq<OutPoint>, undo: seq<Coin>) {
    |undo| <= |spends| && forall i :: 0 <= i < |undo| ==> Taken(Removed(v, spends[..i]), spends[i], undo[i])
  }

  lemma UndoNext(v: Coins, spends: seq<OutPoint>, undo: seq<Coin>, coin: Coin)
    requires Undoes(v, spends, undo) && |undo| < |spends| && Taken(Removed(v, spends[..|undo|]), spends[|undo|], coin)
    ensures Undoes(v, spends, undo + [coin])
  {
  }

  /** Spend the inputs of a transaction in the top cache; undo holds the coins they were. */
  method SpendAll(s: Stack, spends: seq<OutPoint>) returns (undo: seq<Coin>)
    requires s.Valid() && s.layers != []
    modifies s`layers, s`top
    ensures s.Valid()
    ensures s.top == old(s.top).(coins := Removed(old(s.top).coins, spends))
    ensures |undo| == |spends| && Undoes(old(s.top).coins, spends, undo)
  {
    undo := [];
    ghost var v := s.top;
    for i := 0 to |spends|
      invariant s.Valid()
      invariant s.top == v.(coins := Removed(v.coins, spends[..i]))
      invariant |undo| == i && Undoes(v.coins, spends, undo)
    {
      var coin := s.SpendCoin(spends[i]);
      UndoNext(v.coins, spends, undo, coin);
      undo := undo + [coin];
      assert spends[..i + 1][..i] == spends[..i];
    }
    assert spends[..|spends|] == spends;
  }

  /** Create the outputs of a transaction in the top cache; none of them replaces a coin. */
  method CreateAll(s: Stack, outs: seq<Output>)
    requires s.Valid() && s.layers != [] && NoneSpent(outs) && AllNew(s.top.coins, outs)
    modifies s`layers, s`top
    ensures s.Valid()
    ensures s.top == old(s.top).(coins := Created(old(s.top).coins, outs))
  {
    ghost var v := s.top;
    for i := 0 to |outs|
      invariant s.Valid()
      invariant s.top == v.(coins := Created(v.coins, outs[..i]))
    {
      var ok := s.AddCoin(outs[i].0, outs[i].1, false);
      assert outs[..i + 1][..i] == outs[..i];
    }
    assert outs[..|outs|] == outs;
  }

  method UpdateCoins(s: Stack, tx: Tx) returns (undo: seq<Coin>)
    requires s.Valid() && s.layers != [] && TxFits(s.top.coins, tx)
    modifies s`layers, s`top
    ensures s.Valid()
    ensures s.top == old(s.top).(coins := AfterTx(old(s.top).coins, tx))
    ensures |undo| == |tx.spends| && Undoes(old(s.top).coins, tx.spends, undo)
  {
    undo := SpendAll(s, tx.spends);
    CreateAll(s, tx.creates);
  }

  /** undo holds the coins that transaction i of the block took. */
  ghost predicate UndoesTx(v: Coins, txs: seq<Tx>, i: nat, undo: seq<Coin>)
    requires i < |txs|
  {
    |undo| == |txs[i].spends| && Undoes(AfterBlock(v, txs[..i]), txs[i].spends, undo)
  }

  ghost predicate BlockUndoes(v: Coins, txs: seq<Tx>, undos: seq<seq<Coin>>) {
    |undos| <= |txs| && forall i :: 0 <= i < |undos| ==> UndoesTx(v, txs, i, undos[i])
  }

  lemma BlockUndoNext(v: Coins, txs: seq<Tx>, undos: seq<seq<Coin>>, undo: seq<Coin>)
    requires BlockUndoes(v, txs, undos) && |undos| < |txs| && UndoesTx(v, txs, |undos|, undo)
    ensures BlockUndoes(v, txs, undos + [undo])
  {
  }

  lemma AfterBlockNext(v: Coins, txs: seq<Tx>, i: nat)
    requires i < |txs|
    ensures AfterBlock(v, txs[..i + 1]) == AfterTx(AfterBlock(v, txs[..i]), txs[i])
  {
    assert txs[..i + 1][..i] == txs[..i];
  }

  lemma GrownNext(tree: Tree, txs: seq<Tx>, i: nat)
    requires i < |txs|
    ensures Grown(tree, txs[..i + 1]) == Grown(tree, txs[..i]) + txs[i].commitments
  {
    assert txs[..i + 1][..i] == txs[..i];
  }

  method UpdateAll(s: Stack, txs: seq<Tx>, tree: Tree) returns (undos: seq<seq<Coin>>, grown: Tree)
    requires s.Valid() && s.layers != [] && BlockFits(s.top.coins, txs)
    modifies s`layers, s`top
    ensures s.Valid()
    ensures s.top == old(s.top).(coins := AfterBlock(old(s.top).coins, txs))
    ensures |undos| == |txs| && BlockUndoes(old(s.top).coins, txs, undos)
    ensures grown == Grown(tree, txs)
  {
    undos, grown := [], tree;
    ghost var v := s.top;
    for i := 0 to |txs|
      invariant s.Valid()
      invariant s.top == v.(coins := AfterBlock(v.coins, txs[..i]))
      invariant |undos| == i && BlockUndoes(v.coins, txs, undos)
      invariant grown == Grown(tree, txs[..i])
    {
      var undo := UpdateCoins(s, txs[i]);
      GrownNext(tree, txs, i);
      grown := grown + txs[i].commitments;
      BlockUndoNext(v.coins, txs, undos, undo);
      AfterBlockNext(v.coins, txs, i);
      undos := undos + [undo];
    }
    assert txs[..|txs|] == txs;
  }

  /** Apply a block to the top cache, whose best anchor must be known. */
  method ConnectBlock(s: Stack, txs: seq<Tx>, hash: Hash) returns (undos: seq<seq<Coin>>)
    requires s.Valid() && s.layers != [] && hash != 0 && BlockFits(s.top.coins, txs)
    requires s.top.anchor in s.top.anchors
    modifies s`layers, s`top
    ensures s.Valid()
    ensures SameMaps(s.top, Connected(s.root, old(s.top), txs, hash))
    ensures var shown := Connected(s.root, old(s.top), txs, hash);
      shown.anchor != 0 ==> s.top == shown
    ensures var top := s.layers[|s.layers| - 1];
      top.block == hash && top.anchor == Connected(s.root, old(s.top), txs, hash).anchor
    ensures |undos| == |txs| && BlockUndoes(old(s.top).coins, txs, undos)
  {
    var tree := ReadBestTree(s);
    undos := ApplyBlock(s, txs, tree, hash);
  }

  /** Apply a block to the top cache, growing the given tree. */
  method ApplyBlock(s: Stack, txs: seq<Tx>, tree: Tree, hash: Hash) returns (undos: seq<seq<Coin>>)
    requires s.Valid() && s.layers != [] && hash != 0 && BlockFits(s.top.coins, txs)
    modifies s`layers, s`top
    ensures s.Valid()
    ensures var shown := Applied(s.root, old(s.top), txs, Grown(tree, txs), hash);
      SameMaps(s.top, shown) && (shown.anchor != 0 ==> s.top == shown)
    ensures var top := s.layers[|s.layers| - 1]; top.block == hash && top.anchor == s.root(Grown(tree, txs))
    ensures |undos| == |txs| && BlockUndoes(old(s.top).coins, txs, undos)
  {
    var grown;
    undos, grown := UpdateAll(s, txs, tree);
    s.PushAnchor(grown);
    s.SetBestBlock(hash);
  }

  method ReadBestTree(s: Stack) returns (tree: Tree)
    requires s.Valid() && s.layers != [] && s.top.anchor in s.top.anchors
    modifies s`layers
    ensures s.Valid()
    ensures tree == BestTree(s.top)
  {
    var best := s.GetBestAnchor(|s.layers|);
    var found;
    found, tree := s.GetSaplingAnchorAt(|s.layers|, best);
    assert found;
  }

  // ---- the anchors of a chain

  ghost predicate NonNull(root: Tree -> Hash) { forall t :: root(t) != 0 }

  /**
   Anchors as blocks leave them: the best one and the empty one are known, trees are kept
   under their roots, and every known tree is an earlier stage of the best one. No root is
   the null hash.
   */
  ghost predicate Nested(root: Tree -> Hash, v: View) {
    && NonNull(root) && Rooted(root, v.anchors)
    && v.anchor in v.anchors && root(EMPTY_TREE) in v.anchors
    && forall k :: k in v.anchors ==> v.anchors[k] <= v.anchors[v.anchor]
  }

  lemma {:induction false} GrownExtends(tree: Tree, txs: seq<Tx>)
    ensures tree <= Grown(tree, txs)
  {
    if txs != [] { GrownExtends(tree, txs[..|txs| - 1]); }
  }

  /** A block either leaves the tree as it is or makes a root that was not known. */
  lemma NewRootIsNew(root: Tree -> Hash, v: View, txs: seq<Tx>)
    requires Injective(root) && Nested(root, v)
    ensures var rt := root(Grown(BestTree(v), txs)); v.anchor == rt || rt !in v.anchors
  {
    var tree := Grown(BestTree(v), txs);
    GrownExtends(BestTree(v), txs);
    if root(tree) in v.anchors {
      assert root(v.anchors[root(tree)]) == root(tree);
      assert tree <= BestTree(v) && tree == BestTree(v);
    }
  }

  /** Connecting a block keeps the anchors nested. */
  lemma ConnectedNests(root: Tree -> Hash, v: View, txs: seq<Tx>, hash: Hash)
    requires Injective(root) && Nested(root, v)
    ensures Nested(root, Connected(root, v, txs, hash))
  {
    var w, tree := Connected(root, v, txs, hash), Grown(BestTree(v), txs);
    GrownExtends(BestTree(v), txs);
    assert w.anchors[w.anchor] == tree by {
      if v.anchor == root(tree) { assert root(BestTree(v)) == root(tree); }
    }
    forall k | k in w.anchors
      ensures w.anchors[k] <= tree
    {
      if k != root(tree) { assert v.anchors[k] <= BestTree(v); }
    }
  }

  /** Where the empty tree is known, adding it changes nothing. */
  lemma NestedHasEmpty(root: Tree -> Hash, v: View)
    requires Injective(root) && Nested(root, v)
    ensures WithEmpty(root, v) == v
  {
    assert root(v.anchors[root(EMPTY_TREE)]) == root(EMPTY_TREE);
    assert v.anchors[root(EMPTY_TREE) := EMPTY_TREE] == v.anchors;
  }

  /**
   Connect a block to the tip: a cache over the tip cache, the block applied to it, written
   into the tip cache and dropped. The tip cache then shows the block connected to what it
   showed, and the database is untouched.
   */
  method ConnectTip(s: Stack, txs: seq<Tx>, hash: Hash) returns (undos: seq<seq<Coin>>)
    requires s.Valid() && |s.layers| == 1 && hash != 0 && BlockFits(s.top.coins, txs) && Nested(s.root, s.top)
    modifies s`layers, s`below, s`top
    ensures s.Valid() && |s.layers| == 1 && s.layers[0].block == hash && s.below == old(s.below)
    ensures s.top == Connected(s.root, old(s.top), txs, hash) && Nested(s.root, s.top)
    ensures |undos| == |txs| && BlockUndoes(old(s.top).coins, txs, undos)
  {
    ConnectedNests(s.root, s.top, txs, hash);
    s.Push();
    undos := ConnectBlock(s, txs, hash);
    Commit(s);
  }

  /**
   Write a cache that knows its best block and anchor into the tip cache, and drop it: the tip
   shows what it showed.
   */
  method Commit(s: Stack)
    requires s.Valid() && |s.layers| == 2 && s.layers[1].block != 0 && s.layers[1].anchor != 0
    modifies s`layers, s`below, s`top
    ensures s.Valid() && |s.layers| == 1 && s.layers[0].block == old(s.layers[1].block)
    ensures s.top == old(s.top) && s.below == old(s.below)[..1]
  {
    LayerAt(s.root, s.db, s.layers, s.Views(), 1);
    ghost var views := s.Views();
    s.FlushToCache(1);
    assert s.Views()[..1] == views[..1] == [s.below[0]];
    s.Pop();
  }

  /** Write the tip to the database: it then shows what the tip shows, and the tip still shows it. */
  method FlushTip(s: Stack)
    requires s.Valid() && |s.layers| == 1 && s.layers[0].block != 0 && Nested(s.root, s.top)
    modifies s
    ensures s.Valid() && |s.layers| == 1 && s.layers[0].block == old(s.layers[0].block)
    ensures s.top == old(s.top) && s.below == [s.top]
  {
    ghost var views := s.Views();
    NestedHasEmpty(s.root, s.top);
    s.FlushToDb();
    assert RegainsAt(s.root, old(s.layers), views, s.Views(), 1);
  }

  // ---- what a flush loses

  /**
   A cache that was never asked for its best block, written into a parent that knows 7: the
   parent then answers the database's.
   */
  method LosesBestBlock(root: Tree -> Hash) returns (before: Hash, after: Hash)
    requires Injective(root)
    ensures before == 7 && after == 0
  {
    var s := new Stack(root);
    s.Push();
    s.SetBestBlock(7);
    s.Push();
    before := s.GetBestBlock(1);
    s.FlushToCache(1);
    after := s.GetBestBlock(1);
  }

  /**
   The empty tree, withdrawn from a new stack's cache, is an anchor again once the cache is
   written to the database.
   */
  method RegainsEmptyAnchor(root: Tree -> Hash) returns (before: bool, after: bool)
    requires Injective(root)
    ensures !before && after
  {
    var s := new Stack(root);
    s.Push();
    s.PopAnchor(root(EMPTY_TREE) + 1);
    var tree;
    before, tree := s.GetSaplingAnchorAt(1, root(EMPTY_TREE));
    s.SetBestBlock(1);
    s.FlushToDb();
    after, tree := s.GetSaplingAnchorAt(1, root(EMPTY_TREE));
  }
}
