/**
 The code that disconnects a block from the top cache of a stack, and connecting a block and
 disconnecting it again.
 */
module CoinsDisconnect {
  import opened Common
  import opened CoinsModel
  import opened CoinsLayer
  import opened CoinsChanges
  import opened CoinsViews
  import opened CoinsStack
  import opened CoinsBlocks
  import opened CoinsUndo

  datatype Disconnected = Clean | Unclean | Failed

  /** Some unspent output of a transaction, or a spent coin. */
  method AccessByTxid(s: Stack, hash: nat) returns (coin: Coin)
    requires s.Valid()
    modifies s`layers
    ensures s.Valid()
    ensures var a := Alternate(s.top.coins, hash, 0); if a.Some? then coin == a.value && !coin.IsSpent()
      else coin.IsSpent()
  {
    var n := 0;
    while n < MAX_OUTPUTS_PER_BLOCK
      invariant s.Valid() && Alternate(s.top.coins, hash, 0) == Alternate(s.top.coins, hash, n)
    {
      coin := s.AccessCoin(|s.layers|, OutPoint(hash, n));
      if !coin.IsSpent() {
        return;
      }
      n := n + 1;
    }
    coin := NULL_COIN;
  }

  /** Put one coin back. */
  method ApplyTxInUndo(s: Stack, undo: Coin, o: OutPoint) returns (res: Disconnected)
    requires s.Valid() && s.layers != [] && !undo.IsSpent()
    modifies s`layers, s`top
    ensures s.Valid()
    ensures var v := old(s.top); var coin := Filled(v.coins, o, undo);
      if coin.None? then res == Failed && s.top == v
      else res == (if o in v.coins then Unclean else Clean) && s.top == v.(coins := PutBack(v.coins, o, coin.value))
  {
    ghost var v, base, was := s.top, s.Base(), s.layers;
    var have := s.HaveCoin(|s.layers|, o);
    var coin := undo;
    if undo.height == 0 {
      var a := AccessByTxid(s, o.hash);
      if a.IsSpent() {
        return Failed;
      }
      coin := undo.(height := a.height, coinBase := a.coinBase, coinStake := a.coinStake);
    }
    var ok := s.AddCoin(o, coin, have);
    res := if have then Unclean else Clean;
  }

  /** Put the coins of a transaction back, the last one first. */
  method RestoreAll(s: Stack, spends: seq<OutPoint>, undo: seq<Coin>) returns (res: Disconnected)
    requires s.Valid() && s.layers != [] && |undo| == |spends| && forall j :: 0 <= j < |undo| ==> !undo[j].IsSpent()
    modifies s`layers, s`top
    ensures s.Valid()
    ensures var v := old(s.top); var w := RestoredFrom(v.coins, spends, undo, 0);
      if w.None? then res == Failed
      else s.top == v.(coins := w.value) && res == if NoneThere(v.coins, spends, undo) then Clean else Unclean
  {
    ghost var v, w := s.top, s.top.coins;
    var j: nat, fClean := |spends|, true;
    while j > 0
      invariant j <= |spends| && s.Valid()
      invariant RestoredFrom(v.coins, spends, undo, j) == Some(w) && s.top == v.(coins := w)
      invariant fClean <==> NoneThereFrom(v.coins, spends, undo, j)
    {
      j := j - 1;
      RestoreNext(v.coins, spends, undo, j, w);
      var one := ApplyTxInUndo(s, undo[j], spends[j]);
      if one == Failed {
        RestoreStops(v.coins, spends, undo, j);
        return Failed;
      }
      w := s.top.coins;
      fClean := fClean && one != Unclean;
    }
    res := if fClean then Clean else Unclean;
  }

  /** Take one output out, if it can be spent, and compare it with what the view had. */
  method RetractOne(s: Stack, out: Output) returns (matches: bool)
    requires s.Valid() && s.layers != [] && !out.1.IsSpent()
    modifies s`layers, s`top
    ensures s.Valid()
    ensures s.top == old(s.top).(coins := Without(old(s.top).coins, out))
    ensures matches <==> Matches(old(s.top).coins, out)
  {
    matches := true;
    if !out.1.IsUnspendable() {
      var coin := s.SpendCoin(out.0);
      matches := SameOutput(coin, out.1);
    }
  }

  /** Take the outputs of a transaction out. */
  method RetractAll(s: Stack, outs: seq<Output>) returns (fClean: bool)
    requires s.Valid() && s.layers != [] && NoneSpent(outs)
    modifies s`layers, s`top
    ensures s.Valid()
    ensures s.top == old(s.top).(coins := Retracted(old(s.top).coins, outs))
    ensures fClean <==> OutputsMatch(old(s.top).coins, outs, |outs|)
  {
    ghost var v := s.top;
    fClean := true;
    for i := 0 to |outs|
      invariant s.Valid()
      invariant s.top == v.(coins := Retracted(v.coins, outs[..i]))
      invariant fClean <==> OutputsMatch(v.coins, outs, i)
    {
      RetractNext(v.coins, outs, i);
      var matches := RetractOne(s, outs[i]);
      fClean := fClean && matches;
    }
    assert outs[..|outs|] == outs;
  }

  method DisconnectTx(s: Stack, tx: Tx, undo: seq<Coin>) returns (res: Disconnected)
    requires s.Valid() && s.layers != [] && NoneSpent(tx.creates) && Complete(undo)
    modifies s`layers, s`top
    ensures s.Valid()
    ensures var v := old(s.top);
      if |undo| != |tx.spends| || UndoneTx(v.coins, tx, undo).None? then res == Failed
      else s.top == v.(coins := UndoneTx(v.coins, tx, undo).value) && res == if TxTidy(v.coins, tx, undo)
        then Clean else Unclean
  {
    var fClean := RetractAll(s, tx.creates);
    if |undo| != |tx.spends| {
      return Failed;
    }
    res := RestoreAll(s, tx.spends, undo);
    if res == Clean && !fClean {
      res := Unclean;
    }
  }

  method DisconnectAll(s: Stack, txs: seq<Tx>, undos: seq<seq<Coin>>) returns (res: Disconnected)
    requires s.Valid() && s.layers != [] && |undos| == |txs| && AllComplete(txs, undos)
    modifies s`layers, s`top
    ensures s.Valid()
    ensures var v := old(s.top); var w := UndoneFrom(v.coins, txs, undos, 0);
      if w.None? then res == Failed
      else s.top == v.(coins := w.value) && res == if TidyFrom(v.coins, txs, undos, 0) then Clean else Unclean
  {
    ghost var v, w := s.top, s.top.coins;
    var i: nat, fClean := |txs|, true;
    while i > 0
      invariant i <= |txs| && s.Valid()
      invariant UndoneFrom(v.coins, txs, undos, i) == Some(w) && s.top == v.(coins := w)
      invariant fClean <==> TidyFrom(v.coins, txs, undos, i)
    {
      i := i - 1;
      UndoneNext(v.coins, txs, undos, i, w);
      var one := DisconnectTx(s, txs[i], undos[i]);
      if one == Failed {
        UndoStops(v.coins, txs, undos, i);
        return Failed;
      }
      w := s.top.coins;
      fClean := fClean && one != Unclean;
    }
    res := if fClean then Clean else Unclean;
  }

  /** The view v over base with the best anchor and block of the block before. */
  function Back(v: View, base: View, prevRoot: Hash, prevHash: Hash): View {
    Popped(v, base, prevRoot).(block := if prevHash != 0 then prevHash else base.block)
  }

  /** Return to the anchor and the hash of the block before. */
  method StepBack(s: Stack, prevRoot: Hash, prevHash: Hash)
    requires s.Valid() && s.layers != []
    requires s.top.anchor == prevRoot || s.top.anchor in s.top.anchors
    modifies s`layers, s`top
    ensures s.Valid()
    ensures s.top == Back(old(s.top), s.Base(), prevRoot, prevHash)
    ensures s.layers[|s.layers| - 1].block == prevHash && s.layers[|s.layers| - 1].anchor == prevRoot
  {
    s.PopAnchor(prevRoot);
    s.SetBestBlock(prevHash);
  }

  /** What disconnecting a block makes of the view v over base, and what it reports. */
  ghost predicate Disconnects(v: View, base: View, txs: seq<Tx>, undos: seq<seq<Coin>>, prevRoot: Hash, prevHash: Hash,
                              res: Disconnected, now: View) {
    if |undos| != |txs| || UndoneFrom(v.coins, txs, undos, 0).None? then res == Failed
    else
      && now == Back(v.(coins := UndoneFrom(v.coins, txs, undos, 0).value), base, prevRoot, prevHash)
      && res == if TidyFrom(v.coins, txs, undos, 0) then Clean else Unclean
  }

  /** Undo a block in the top cache; prevRoot and prevHash are those of the block before it. */
  method DisconnectBlock(s: Stack, txs: seq<Tx>, undos: seq<seq<Coin>>, prevRoot: Hash, prevHash: Hash)
    returns (res: Disconnected)
    requires s.Valid() && s.layers != [] && AllComplete(txs, undos)
    requires s.top.anchor == prevRoot || s.top.anchor in s.top.anchors
    modifies s`layers, s`top
    ensures s.Valid() && Disconnects(old(s.top), s.Base(), txs, undos, prevRoot, prevHash, res, s.top)
    ensures res != Failed ==> s.layers[|s.layers| - 1].block == prevHash && s.layers[|s.layers| - 1].anchor == prevRoot
  {
    if |undos| != |txs| {
      return Failed;
    }
    res := DisconnectAll(s, txs, undos);
    if res != Failed {
      StepBack(s, prevRoot, prevHash);
    }
  }

  /** Undoing the block that led to a view gives back the view before it. */
  lemma BackFromConnected(root: Tree -> Hash, v: View, base: View, txs: seq<Tx>, hash: Hash)
    requires Injective(root) && Nested(root, v) && (v.block == 0 ==> base.block == 0)
    ensures Back(Connected(root, v, txs, hash).(coins := v.coins), base, v.anchor, v.block) == v
  {
    NewRootIsNew(root, v, txs);
    var rt := root(Grown(BestTree(v), txs));
    if v.anchor != rt {
      assert v.anchors[rt := Grown(BestTree(v), txs)] - {rt} == v.anchors;
    }
  }

  /** A hash that the top view lacks, the view below lacks too. */
  lemma BlockBelow(s: Stack)
    requires s.Valid() && s.layers != []
    ensures s.top.block == 0 ==> s.Base().block == 0
    ensures Unspent(s.top.coins)
  {
    LayerAt(s.root, s.db, s.layers, s.Views(), |s.layers| - 1);
  }

  /** Was the view w reached from v by connecting the block, with these undo data? */
  ghost predicate CameFrom(root: Tree -> Hash, v: View, w: View, txs: seq<Tx>, hash: Hash, undos: seq<seq<Coin>>) {
    && Nested(root, v) && Unspent(v.coins) && BlockFits(v.coins, txs) && BlockWhole(v.coins, txs)
    && w == Connected(root, v, txs, hash) && |undos| == |txs| && BlockUndoes(v.coins, txs, undos)
  }

  /** Disconnecting the block from w will be clean and leave v. */
  ghost predicate Reversible(v: View, w: View, base: View, txs: seq<Tx>, undos: seq<seq<Coin>>, prevRoot: Hash,
                             prevHash: Hash) {
    && |undos| == |txs| && AllComplete(txs, undos) && w.anchor in w.anchors
    && UndoneFrom(w.coins, txs, undos, 0) == Some(v.coins) && TidyFrom(w.coins, txs, undos, 0)
    && Back(w.(coins := v.coins), base, prevRoot, prevHash) == v
  }

  /** A view that came from v by connecting a block can be reverted to v. */
  lemma ConnectedReverts(root: Tree -> Hash, v: View, w: View, base: View, txs: seq<Tx>, hash: Hash,
                         undos: seq<seq<Coin>>)
    requires Injective(root) && CameFrom(root, v, w, txs, hash, undos) && (v.block == 0 ==> base.block == 0)
    ensures Reversible(v, w, base, txs, undos, v.anchor, v.block)
  {
    ConnectedNests(root, v, txs, hash);
    UndoIsReady(v.coins, txs, undos);
    BackFromConnected(root, v, base, txs, hash);
  }

  /** Undo a block in the top cache where that gives back v. */
  method Revert(s: Stack, txs: seq<Tx>, undos: seq<seq<Coin>>, prevRoot: Hash, prevHash: Hash, ghost v: View)
    returns (res: Disconnected)
    requires s.Valid() && s.layers != [] && Reversible(v, s.top, s.Base(), txs, undos, prevRoot, prevHash)
    modifies s`layers, s`top
    ensures s.Valid() && res == Clean && s.top == v
    ensures s.layers[|s.layers| - 1].block == prevHash && s.layers[|s.layers| - 1].anchor == prevRoot
  {
    res := DisconnectBlock(s, txs, undos, prevRoot, prevHash);
  }

  /** Connect a block in the top cache, noting the anchor and the block before it. */
  method ConnectNoting(s: Stack, txs: seq<Tx>, hash: Hash)
    returns (undos: seq<seq<Coin>>, prevRoot: Hash, prevHash: Hash)
    requires s.Valid() && s.layers != [] && hash != 0 && Nested(s.root, s.top)
    requires BlockFits(s.top.coins, txs)
    modifies s`layers, s`top
    ensures s.Valid()
    ensures s.top == Connected(s.root, old(s.top), txs, hash)
    ensures prevRoot == old(s.top).anchor && prevHash == old(s.top).block
    ensures |undos| == |txs| && BlockUndoes(old(s.top).coins, txs, undos)
  {
    prevRoot := s.GetBestAnchor(|s.layers|);
    prevHash := s.GetBestBlock(|s.layers|);
    ConnectedNests(s.root, s.top, txs, hash);
    undos := ConnectBlock(s, txs, hash);
  }

  /** Connecting a block in the top cache and disconnecting it again is clean and restores the whole view. */
  method ConnectAndDisconnect(s: Stack, txs: seq<Tx>, hash: Hash) returns (res: Disconnected)
    requires s.Valid() && s.layers != [] && hash != 0 && Nested(s.root, s.top)
    requires BlockFits(s.top.coins, txs) && BlockWhole(s.top.coins, txs)
    modifies s`layers, s`top
    ensures s.Valid()
    ensures res == Clean && s.top == old(s.top)
  {
    ghost var v := s.top;
    BlockBelow(s);
    var undos, prevRoot, prevHash := ConnectNoting(s, txs, hash);
    ConnectedReverts(s.root, v, s.top, s.Base(), txs, hash, undos);
    res := Revert(s, txs, undos, prevRoot, prevHash, v);
  }

  /**
   Disconnect the tip: a cache over the tip cache, the block undone in it, written into the
   tip cache and dropped. When the tip came from v by connecting the block, it shows v again.
   */
  method DisconnectTip(s: Stack, txs: seq<Tx>, undos: seq<seq<Coin>>, prevRoot: Hash, prevHash: Hash, ghost v: View,
                       ghost hash: Hash)
    returns (res: Disconnected)
    requires s.Valid() && |s.layers| == 1 && CameFrom(s.root, v, s.top, txs, hash, undos)
    requires prevRoot == v.anchor && prevHash == v.block != 0
    modifies s`layers, s`below, s`top
    ensures s.Valid() && |s.layers| == 1 && s.layers[0].block == prevHash
    ensures res == Clean && s.top == v && s.below == old(s.below)
  {
    ConnectedReverts(s.root, v, s.top, s.top, txs, hash, undos);
    s.Push();
    res := Revert(s, txs, undos, prevRoot, prevHash, v);
    Commit(s);
  }
}
