/**
 The stack of coin views. Reading fills the caches on the way; flushing writes a cache
 into its parent. The stack behaves like one flat map.
 */
module CoinsStack {
  import opened CoinsModel
  import opened CoinsLayer
  import opened CoinsBatch
  import opened CoinsChanges
  import opened CoinsViews

  class Stack {
    const root: Tree -> Hash
    var db: Database
    var layers: seq<Layer>
    /** What the top view answers, and what the views below it do, from the database up. */
    ghost var top: View
    ghost var below: seq<View>

    ghost function Views(): seq<View>
      reads this
    {
      below + [top]
    }

    /** The views are those that the layers make over the database, and each layer keeps its promises. */
    ghost predicate Valid()
      reads this
    {
      StackOk(root, db, layers, Views())
    }

    /** What view k answers. */
    ghost function Sees(k: nat): View
      reads this
      requires k <= |below|
    {
      Views()[k]
    }

    /** What the parent of the top view answers. */
    ghost function Base(): View
      reads this
      requires below != []
    {
      below[|below| - 1]
    }

    /** An empty database under no caches. */
    constructor (root: Tree -> Hash)
      requires Injective(root)
      ensures Valid() && layers == [] && this.root == root
      ensures top == View(map[], map[root(EMPTY_TREE) := EMPTY_TREE], map[], 0, root(EMPTY_TREE))
    {
      this.root := root;
      db := Database(map[], map[], map[], 0, 0);
      layers := [];
      top, below := View(map[], map[root(EMPTY_TREE) := EMPTY_TREE], map[], 0, root(EMPTY_TREE)), [];
      new;
      assert ViewAt(root, db, layers, Views(), 0);
    }

    /** A new cache shows what its parent shows. */
    method Push()
      requires Valid()
      modifies this`layers, this`below
      ensures Valid() && layers == old(layers) + [EMPTY_LAYER] && below == old(below) + [top]
    {
      PushKeeps(root, db, layers, Views());
      layers := layers + [EMPTY_LAYER];
      below := below + [top];
    }

    /** Drop the top cache, and with it what was not flushed; the other views do not notice. */
    method Pop()
      requires Valid() && layers != []
      modifies this`layers, this`below, this`top
      ensures Valid() && layers == old(layers)[..old(|layers|) - 1]
      ensures Views() == old(below)
    {
      PopKeeps(root, db, layers, Views());
      assert Views()[..|layers|] == below == below[..|layers| - 1] + [Base()];
      layers := layers[..|layers| - 1];
      top, below := Base(), below[..|below| - 1];
    }

    /** Replace layer k by one its view does not tell apart. */
    method Store(k: nat, l: Layer)
      requires Valid() && k < |layers| && Unseen(root, layers[k], l, Sees(k))
      modifies this`layers
      ensures Valid() && layers == old(layers)[k := l]
    {
      UnseenChange(root, db, layers, Views(), k, l);
      layers := layers[k := l];
    }

    // ---- reading, from any view

    method GetCoin(k: nat, o: OutPoint) returns (a: Answer)
      requires Valid() && k <= |layers|
      modifies this`layers
      ensures Valid() && Right(a, Sees(k).coins, o)
      ensures forall j :: k <= j < |layers| ==> layers[j] == old(layers[j])
      decreases k, 1
    {
      if k == 0 {
        BottomAt(root, db, layers, Views());
        a := if o in db.coins then Found(db.coins[o]) else NoCoin;
      } else {
        FetchCoin(k, o);
        LayerAt(root, db, layers, Views(), k - 1);
        FilledAnswersRight(layers[k - 1].coins, Sees(k - 1).coins, o);
        a := Lookup(layers[k - 1].coins, o);
      }
    }

    /** Bring the coin into the cache of view k, if the parent knows it. */
    method FetchCoin(k: nat, o: OutPoint)
      requires Valid() && 1 <= k <= |layers|
      modifies this`layers
      ensures Valid() && (o !in layers[k - 1].coins ==> o !in Sees(k - 1).coins)
      ensures forall j :: k <= j < |layers| ==> layers[j] == old(layers[j])
      decreases k, 0
    {
      if o in layers[k - 1].coins { return; }
      var a := GetCoin(k - 1, o);
      Remember(k - 1, o, a);
    }

    /** The parent's answer is kept in the cache. */
    method Remember(k: nat, o: OutPoint, a: Answer)
      requires Valid() && k < |layers| && o !in layers[k].coins && Right(a, Sees(k).coins, o)
      modifies this`layers
      ensures Valid() && layers == old(layers)[k := old(layers)[k].(coins := Fill(old(layers)[k].coins, o, a))]
    {
      LayerAt(root, db, layers, Views(), k);
      NoteCoin(root, layers[k], Sees(k), o, a);
      Store(k, layers[k].(coins := Fill(layers[k].coins, o, a)));
    }

    method HaveCoin(k: nat, o: OutPoint) returns (have: bool)
      requires Valid() && k <= |layers|
      modifies this`layers
      ensures Valid() && (have <==> o in Sees(k).coins)
    {
      var a := GetCoin(k, o);
      assert ViewAt(root, db, layers, Views(), k);
      have := a.Found? && !a.coin.IsSpent();
    }

    method AccessCoin(k: nat, o: OutPoint) returns (coin: Coin)
      requires Valid() && k <= |layers|
      modifies this`layers
      ensures Valid() && (coin.IsSpent() <==> o !in Sees(k).coins)
      ensures o in Sees(k).coins ==> coin == Sees(k).coins[o]
    {
      var a := GetCoin(k, o);
      assert ViewAt(root, db, layers, Views(), k);
      coin := if a.Found? then a.coin else NULL_COIN;
    }

    method Uncache(k: nat, o: OutPoint)
      requires Valid() && 1 <= k <= |layers|
      modifies this`layers
      ensures Valid()
      ensures !(o in layers[k - 1].coins && !layers[k - 1].coins[o].dirty && !layers[k - 1].coins[o].fresh_)
      ensures var l := old(layers[k - 1]);
        layers == old(layers)[k - 1 := l.(coins := CoinsModel.Uncache(l.coins, o))]
    {
      LayerAt(root, db, layers, Views(), k - 1);
      DropCoin(root, layers[k - 1], Sees(k - 1), o);
      Store(k - 1, layers[k - 1].(coins := CoinsModel.Uncache(layers[k - 1].coins, o)));
    }

    method GetNullifier(k: nat, n: Hash) returns (spent: bool)
      requires Valid() && k <= |layers|
      modifies this`layers
      ensures Valid() && (spent <==> n in Sees(k).nullifiers)
      ensures forall j :: k <= j < |layers| ==> layers[j] == old(layers[j])
      decreases k
    {
      if k == 0 {
        BottomAt(root, db, layers, Views());
        return n in db.nullifiers;
      }
      LayerAt(root, db, layers, Views(), k - 1);
      if n in layers[k - 1].nullifiers { return layers[k - 1].nullifiers[n].entered; }
      spent := GetNullifier(k - 1, n);
      RememberNullifier(k - 1, n, spent);
    }

    method RememberNullifier(k: nat, n: Hash, spent: bool)
      requires Valid() && k < |layers| && n !in layers[k].nullifiers && (spent <==> n in Sees(k).nullifiers)
      modifies this`layers
      ensures Valid() && (spent <==> n in Sees(k + 1).nullifiers)
      ensures forall j :: k < j < |layers| ==> layers[j] == old(layers[j])
    {
      var e := F.FlagEntry(spent, (), false);
      LayerAt(root, db, layers, Views(), k);
      NoteNullifier(root, layers[k], Sees(k), n, e);
      Store(k, layers[k].(nullifiers := layers[k].nullifiers[n := e]));
    }

    method GetSaplingAnchorAt(k: nat, rt: Hash) returns (found: bool, tree: Tree)
      requires Valid() && k <= |layers|
      modifies this`layers
      ensures Valid() && (found <==> rt in Sees(k).anchors) && (found ==> tree == Sees(k).anchors[rt])
      ensures k > 0 && found ==> rt in layers[k - 1].anchors
      ensures forall j :: k <= j < |layers| ==> layers[j] == old(layers[j])
      ensures forall j :: 0 <= j < |layers| ==> layers[j].anchor == old(layers[j].anchor)
      decreases k
    {
      if k == 0 {
        BottomAt(root, db, layers, Views());
        if rt == root(EMPTY_TREE) { return true, EMPTY_TREE; }
        if rt in db.anchors { return true, db.anchors[rt]; }
        return false, EMPTY_TREE;
      }
      LayerAt(root, db, layers, Views(), k - 1);
      if rt in layers[k - 1].anchors {
        return layers[k - 1].anchors[rt].entered, layers[k - 1].anchors[rt].value;
      }
      found, tree := GetSaplingAnchorAt(k - 1, rt);
      if found {
        RememberAnchor(k - 1, rt, tree);
      }
    }

    method RememberAnchor(k: nat, rt: Hash, tree: Tree)
      requires Valid() && k < |layers| && rt !in layers[k].anchors && rt in Sees(k).anchors
      requires Sees(k).anchors[rt] == tree
      modifies this`layers
      ensures Valid() && rt in layers[k].anchors && layers[k].anchor == old(layers[k].anchor)
      ensures forall j :: 0 <= j < |layers| && j != k ==> layers[j] == old(layers[j])
    {
      var e := F.FlagEntry(true, tree, false);
      LayerAt(root, db, layers, Views(), k);
      NoteTree(root, layers[k], Sees(k), rt, e);
      Store(k, layers[k].(anchors := layers[k].anchors[rt := e]));
    }

    method GetBestAnchor(k: nat) returns (best: Hash)
      requires Valid() && k <= |layers|
      modifies this`layers
      ensures Valid() && best == Sees(k).anchor && (k > 0 ==> layers[k - 1].anchor == best)
      ensures forall j :: 0 <= j < |layers| ==> layers[j].block == old(layers[j].block)
      ensures forall j :: k <= j < |layers| ==> layers[j] == old(layers[j])
      decreases k
    {
      if k == 0 {
        BottomAt(root, db, layers, Views());
        return if db.anchor != 0 then db.anchor else root(EMPTY_TREE);
      }
      LayerAt(root, db, layers, Views(), k - 1);
      if layers[k - 1].anchor == 0 {
        best := GetBestAnchor(k - 1);
        LayerAt(root, db, layers, Views(), k - 1);
        NoteAnchor(root, layers[k - 1], Sees(k - 1));
        Store(k - 1, layers[k - 1].(anchor := best));
      }
      best := layers[k - 1].anchor;
    }

    method GetBestBlock(k: nat) returns (best: Hash)
      requires Valid() && k <= |layers|
      modifies this`layers
      ensures Valid() && best == Sees(k).block
      ensures forall j :: k <= j < |layers| ==> layers[j] == old(layers[j])
      decreases k
    {
      if k == 0 {
        BottomAt(root, db, layers, Views());
        return db.block;
      }
      LayerAt(root, db, layers, Views(), k - 1);
      if layers[k - 1].block == 0 {
        best := GetBestBlock(k - 1);
        LayerAt(root, db, layers, Views(), k - 1);
        NoteBlock(root, layers[k - 1], Sees(k - 1));
        Store(k - 1, layers[k - 1].(block := best));
      }
      best := layers[k - 1].block;
    }

    // ---- writing, at the top

    /** Replace the top layer. */
    method StoreTop(l: Layer)
      requires Valid() && layers != [] && LayerOk(root, l, Base())
      modifies this`layers, this`top
      ensures Valid() && layers == old(layers)[old(|layers|) - 1 := l] && top == Over(l, Base())
    {
      TopChange(root, db, layers, below, top, l);
      layers := layers[|layers| - 1 := l];
      top := Over(l, Base());
    }

    /**
     ok is false when the source throws; the cache is then as it was. Without the overwrite
     flag a coin that is there makes it throw, or break what the cache promises its parent.
     */
    method AddCoin(o: OutPoint, coin: Coin, overwrite: bool) returns (ok: bool)
      requires Valid() && layers != [] && !coin.IsSpent()
      modifies this`layers, this`top
      ensures |layers| == old(|layers|)
      ensures !ok || coin.IsUnspendable() ==> layers == old(layers) && top == old(top)
      ensures coin.IsUnspendable() ==> ok
      ensures !coin.IsUnspendable() && Addable(old(top).coins, o, overwrite) ==>
        ok && Valid() && top == old(top).(coins := old(top).coins[o := coin])
      ensures !coin.IsUnspendable() && !Addable(old(top).coins, o, overwrite) ==>
        !ok || !CacheOk(layers[|layers| - 1].coins, Base().coins)
    {
      if coin.IsUnspendable() { return true; }
      var n := |layers| - 1;
      LayerAt(root, db, layers, Views(), n);
      AddToLayer(root, layers[n], Base(), o, coin, overwrite);
      if AddThrows(layers[n].coins, o, overwrite) {
        return false;
      }
      var l := layers[n].(coins := CoinsModel.AddCoin(layers[n].coins, o, coin, overwrite));
      if LayerOk(root, l, Base()) { TopChange(root, db, layers, below, top, l); }
      layers := layers[n := l];
      top := Over(l, Base());
      ok := true;
    }

    /** Spending a coin removes it from the view; moved is the coin, or a spent one. */
    method SpendCoin(o: OutPoint) returns (moved: Coin)
      requires Valid() && layers != []
      modifies this`layers, this`top
      ensures Valid() && top == old(top).(coins := old(top).coins - {o})
      ensures if o in old(top).coins then moved == old(top).coins[o] else moved.IsSpent()
    {
      FetchCoin(|layers|, o);
      moved := SpendFetched(o);
    }

    method SpendFetched(o: OutPoint) returns (moved: Coin)
      requires Valid() && layers != [] && (o !in layers[|layers| - 1].coins ==> o !in Base().coins)
      modifies this`layers, this`top
      ensures Valid() && top == old(top).(coins := old(top).coins - {o})
      ensures if o in old(top).coins then moved == old(top).coins[o] else moved.IsSpent()
    {
      var n := |layers| - 1;
      LayerAt(root, db, layers, Views(), n);
      SpendInLayer(root, layers[n], Base(), o);
      moved := if o in layers[n].coins then layers[n].coins[o].coin else NULL_COIN;
      StoreTop(layers[n].(coins := CoinsModel.SpendCoin(layers[n].coins, o)));
    }

    method SetBestBlock(hash: Hash)
      requires Valid() && layers != []
      modifies this`layers, this`top
      ensures Valid() && top == old(top).(block := if hash != 0 then hash else Base().block)
      ensures layers == old(layers)[|layers| - 1 := old(layers)[|layers| - 1].(block := hash)]
    {
      var n := |layers| - 1;
      LayerAt(root, db, layers, Views(), n);
      SetBlockInLayer(root, layers[n], Base(), hash);
      StoreTop(layers[n].(block := hash));
    }

    method MarkNullifier(n: Hash, spent: bool)
      requires Valid() && layers != []
      modifies this`layers, this`top
      ensures Valid() && top == old(top).(nullifiers := MarkedOne(old(top).nullifiers, n, spent))
    {
      var l := layers[|layers| - 1];
      var e := F.FlagEntry(spent, (), true);
      LayerAt(root, db, layers, Views(), |layers| - 1);
      MarkInLayer(root, l, Base(), n, e);
      StoreTop(l.(nullifiers := l.nullifiers[n := e]));
    }

    /** Mark the nullifiers of a transaction as spent, or as not spent. */
    method SetNullifiers(ns: seq<Hash>, spent: bool)
      requires Valid() && layers != []
      modifies this`layers, this`top
      ensures Valid() && top == old(top).(nullifiers := Marked(old(top).nullifiers, ns, spent))
    {
      for i := 0 to |ns|
        invariant Valid() && top == old(top).(nullifiers := Marked(old(top).nullifiers, ns[..i], spent))
      {
        MarkNullifier(ns[i], spent);
        assert ns[..i + 1][..i] == ns[..i];
      }
      assert ns[..|ns|] == ns;
    }

    /** Make the tree's root the best anchor, entering it unless it already is. */
    method PushAnchor(tree: Tree)
      requires Valid() && layers != []
      modifies this`layers, this`top
      ensures Valid() && layers[|layers| - 1].anchor == root(tree)
      ensures var v, rt := old(top), root(tree);
        top == if v.anchor == rt then v
          else v.(anchors := v.anchors[rt := tree], anchor := if rt != 0 then rt else Base().anchor)
    {
      var rt := root(tree);
      var current := GetBestAnchor(|layers|);
      if current != rt {
        EnterAnchor(rt, F.FlagEntry(true, tree, true), rt);
      }
    }

    /** Withdraw the best anchor, which must be known, and make newRoot the best one. */
    method PopAnchor(newRoot: Hash)
      requires Valid() && layers != [] && (top.anchor == newRoot || top.anchor in top.anchors)
      modifies this`layers, this`top
      ensures Valid() && layers[|layers| - 1].anchor == newRoot && top == Popped(old(top), Base(), newRoot)
    {
      var current := GetBestAnchor(|layers|);
      if current != newRoot {
        var found, tree := GetSaplingAnchorAt(|layers|, current);
        Withdraw(current, newRoot);
      }
    }

    /** Withdraw the anchor rt, which the cache has an entry for, and make best the best one. */
    method Withdraw(rt: Hash, best: Hash)
      requires Valid() && layers != [] && rt in layers[|layers| - 1].anchors
      modifies this`layers, this`top
      ensures Valid() && layers[|layers| - 1].anchor == best
      ensures rt == old(top).anchor != best ==> top == Popped(old(top), Base(), best)
    {
      var e := layers[|layers| - 1].anchors[rt];
      LayerAt(root, db, layers, Views(), |layers| - 1);
      EnterAnchor(rt, e.(entered := false, dirty := true), best);
    }

    /** Set the anchor entry at rt and the best anchor. */
    method EnterAnchor(rt: Hash, e: F.FlagEntry<Tree>, best: Hash)
      requires Valid() && layers != [] && e.dirty && root(e.value) == rt
      modifies this`layers, this`top
      ensures Valid() && layers[|layers| - 1].anchor == best && top == Anchored(old(top), Base(), rt, e, best)
    {
      var l := layers[|layers| - 1];
      LayerAt(root, db, layers, Views(), |layers| - 1);
      AnchorInLayer(root, l, Base(), rt, e, best);
      StoreTop(l.(anchors := l.anchors[rt := e], anchor := best));
    }

    // ---- flushing

    /** Write cache k into the one below it, whatever is above. */
    method FlushToCache(k: nat)
      requires Valid() && 1 <= k < |layers|
      modifies this`layers, this`below, this`top
      ensures Valid() && SameAbove(old(Views()), Views(), k + 1) && Views()[..k] == old(Views())[..k]
      ensures FlushedToParent(old(Sees(k + 1)), old(layers[k]), old(Sees(k - 1)), Sees(k), Sees(k + 1))
      ensures layers == old(layers)[k - 1 := layers[k - 1]][k := Emptied(old(layers[k]))]
      ensures layers[k - 1].block == old(layers[k].block) && layers[k - 1].anchor == old(layers[k].anchor)
    {
      ghost var views, n := Views(), |layers|;
      LayerAt(root, db, layers, views, k - 1);
      LayerAt(root, db, layers, views, k);
      var merged, threw := BatchWrite(root, layers[k], layers[k - 1], views[k - 1]);
      assert !threw;
      FlushLayers(root, db, layers, views, k - 1, merged);
      ghost var after := FlushedViews(layers, views, k - 1, merged);
      layers := layers[k - 1 := merged][k := Emptied(layers[k])];
      top, below := after[n], after[..n];
      assert Views() == after;
    }

    /** Write the lowest cache, which must know the best block, into the database, whatever is above. */
    method FlushToDb()
      requires Valid() && layers != [] && layers[0].block != 0
      modifies this
      ensures Valid() && FlushedToDb(root, old(layers), old(Views()), Views())
      ensures layers == old(layers)[0 := Emptied(old(layers[0]))]
      ensures Sees(0) == Sees(1)
      ensures Sees(0) == old(Sees(1)) <==> !BatchWithdrawsEmpty(root, old(layers[0].anchors))
    {
      ghost var views, n := Views(), |layers|;
      var child := layers[0];
      LayerAt(root, db, layers, views, 0);
      BottomAt(root, db, layers, views);
      var written := WriteToDb(root, child, db);
      FlushDatabase(root, db, layers, views, written);
      ghost var after := FlushedDbViews(root, layers, views);
      db, layers := written, layers[0 := Emptied(child)];
      top, below := after[n], after[..n];
      assert Views() == after;
    }
  }

  /**
   The database after a cache's entries and hashes were written into it: it shows what the cache
   did, and the empty tree.
   */
  method WriteToDb(root: Tree -> Hash, child: Layer, db: Database) returns (written: Database)
    requires Injective(root) && ViewOk(root, DbView(root, db)) && LayerOk(root, child, DbView(root, db))
    requires child.block != 0
    ensures DbView(root, written) == WithEmpty(root, Over(child, DbView(root, db))) && written.block == child.block
  {
    var coins := WriteCoinsToDb(child.coins, db.coins);
    var anchors := WriteAnchorsToDb(root, child.anchors, db.anchors);
    var nullifiers := WriteNullifiersToDb(child.nullifiers, db.nullifiers);
    var anchor := if child.anchor != 0 then child.anchor else db.anchor;
    written := Database(coins, anchors, nullifiers, child.block, anchor);
  }

  /** The parent's layer after a child's entries and hashes were written into it. */
  method BatchWrite(root: Tree -> Hash, child: Layer, parent: Layer, ghost base: View)
    returns (merged: Layer, threw: bool)
    requires Injective(root) && LayerOk(root, parent, base) && LayerOk(root, child, Over(parent, base))
    ensures !threw && LayerOk(root, merged, base)
    ensures merged.block == child.block && merged.anchor == child.anchor
    ensures SameMaps(Over(merged, base), Over(child, Over(parent, base)))
  {
    SameKeySameTree(root, child.anchors, parent.anchors);
    var coins, anchors, nullifiers;
    coins, threw := WriteCoins(child.coins, parent.coins, base.coins);
    anchors := WriteFlags(child.anchors, parent.anchors, base.anchors);
    assert forall k :: k in child.nullifiers && k in parent.nullifiers ==>
      child.nullifiers[k].value == parent.nullifiers[k].value;
    nullifiers := WriteFlags(child.nullifiers, parent.nullifiers, base.nullifiers);
    merged := Layer(coins, anchors, nullifiers, child.block, child.anchor);
  }
}
