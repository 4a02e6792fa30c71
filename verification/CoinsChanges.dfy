/**
 How the operations of a cache change its layer, and what the layer then shows over the
 view of its parent.
 */
module CoinsChanges {
  import opened CoinsModel
  import opened CoinsLayer
  import opened CoinsBatch

  // ---- remembering an answer of the parent

  lemma NoteAnchor(root: Tree -> Hash, l: Layer, base: View)
    requires LayerOk(root, l, base) && l.anchor == 0
    ensures Unseen(root, l, l.(anchor := base.anchor), base)
  {
  }

  lemma NoteBlock(root: Tree -> Hash, l: Layer, base: View)
    requires LayerOk(root, l, base) && l.block == 0
    ensures Unseen(root, l, l.(block := base.block), base)
  {
  }

  lemma NoteNullifier(root: Tree -> Hash, l: Layer, base: View, n: Hash, e: F.FlagEntry<()>)
    requires LayerOk(root, l, base) && n !in l.nullifiers && !e.dirty && (e.entered <==> n in base.nullifiers)
    ensures Unseen(root, l, l.(nullifiers := l.nullifiers[n := e]), base)
    ensures e.entered <==> n in Over(l, base).nullifiers
  {
    if n in base.nullifiers { assert base.nullifiers[n] == e.value; }
    F.FillKeeps(l.nullifiers, base.nullifiers, n, e);
  }

  lemma NoteTree(root: Tree -> Hash, l: Layer, base: View, rt: Hash, e: F.FlagEntry<Tree>)
    requires LayerOk(root, l, base) && ViewOk(root, base) && rt !in l.anchors && !e.dirty && e.entered
    requires rt in base.anchors && base.anchors[rt] == e.value
    ensures Unseen(root, l, l.(anchors := l.anchors[rt := e]), base)
  {
    F.FillKeeps(l.anchors, base.anchors, rt, e);
  }

  lemma NoteCoin(root: Tree -> Hash, l: Layer, base: View, o: OutPoint, a: Answer)
    requires LayerOk(root, l, base) && ViewOk(root, base) && o !in l.coins && Right(a, base.coins, o)
    ensures Unseen(root, l, l.(coins := Fill(l.coins, o, a)), base)
  {
    FillKeeps(l.coins, base.coins, o, a);
  }

  lemma DropCoin(root: Tree -> Hash, l: Layer, base: View, o: OutPoint)
    requires LayerOk(root, l, base)
    ensures Unseen(root, l, l.(coins := Uncache(l.coins, o)), base)
  {
    UncacheKeeps(l.coins, base.coins, o);
  }

  // ---- writing

  lemma AddToLayer(root: Tree -> Hash, l: Layer, base: View, o: OutPoint, coin: Coin, overwrite: bool)
    requires LayerOk(root, l, base) && !coin.IsSpent()
    ensures var m, v := l.(coins := AddCoin(l.coins, o, coin, overwrite)), Over(l, base);
      if Addable(v.coins, o, overwrite) then
        !AddThrows(l.coins, o, overwrite) && LayerOk(root, m, base) && Over(m, base) == v.(coins := v.coins[o := coin])
      else AddThrows(l.coins, o, overwrite) || !CacheOk(m.coins, base.coins)
  {
    AddCoinExactly(l.coins, base.coins, o, coin, overwrite);
    if Addable(See(l.coins, base.coins), o, overwrite) {
      AddCoinKeeps(l.coins, base.coins, o, coin, overwrite);
    }
  }

  lemma SpendInLayer(root: Tree -> Hash, l: Layer, base: View, o: OutPoint)
    requires LayerOk(root, l, base) && (o !in l.coins ==> o !in base.coins)
    ensures var m, v := l.(coins := SpendCoin(l.coins, o)), Over(l, base);
      LayerOk(root, m, base) && Over(m, base) == v.(coins := v.coins - {o}) && Right(Lookup(l.coins, o), v.coins, o)
  {
    SpendCoinKeeps(l.coins, base.coins, o);
    FilledAnswersRight(l.coins, base.coins, o);
  }

  lemma SetBlockInLayer(root: Tree -> Hash, l: Layer, base: View, hash: Hash)
    requires LayerOk(root, l, base)
    ensures LayerOk(root, l.(block := hash), base)
    ensures Over(l.(block := hash), base) == Over(l, base).(block := if hash != 0 then hash else base.block)
  {
  }

  lemma MarkInLayer(root: Tree -> Hash, l: Layer, base: View, n: Hash, e: F.FlagEntry<()>)
    requires LayerOk(root, l, base) && e.dirty
    ensures var m, v := l.(nullifiers := l.nullifiers[n := e]), Over(l, base);
      LayerOk(root, m, base) && Over(m, base) == v.(nullifiers := MarkedOne(v.nullifiers, n, e.entered))
  {
    assert e.value == ();
    F.SetKeeps(l.nullifiers, base.nullifiers, n, e);
  }

  lemma AnchorInLayer(root: Tree -> Hash, l: Layer, base: View, rt: Hash, e: F.FlagEntry<Tree>, best: Hash)
    requires LayerOk(root, l, base) && e.dirty && root(e.value) == rt
    ensures var m := l.(anchors := l.anchors[rt := e], anchor := best);
      LayerOk(root, m, base) && Over(m, base) == Anchored(Over(l, base), base, rt, e, best)
  {
    F.SetKeeps(l.anchors, base.anchors, rt, e);
  }

  /** The view v over base after the anchor entry e is set at rt and the best anchor to best. */
  function Anchored(v: View, base: View, rt: Hash, e: F.FlagEntry<Tree>, best: Hash): View {
    v.(anchors := F.Overlay(v.anchors, rt, e), anchor := if best != 0 then best else base.anchor)
  }

  /** The view v over base after its best anchor is withdrawn and best made the best one, unless it already is. */
  function Popped(v: View, base: View, best: Hash): View {
    if v.anchor == best then v else
    v.(anchors := v.anchors - {v.anchor}, anchor := if best != 0 then best else base.anchor)
  }

  /** The nullifiers after marking those in ns, in order. */
  function Marked(v: Nullifiers, ns: seq<Hash>, spent: bool): Nullifiers {
    if ns == [] then v else
    MarkedOne(Marked(v, ns[..|ns| - 1], spent), ns[|ns| - 1], spent)
  }

  function MarkedOne(v: Nullifiers, n: Hash, spent: bool): Nullifiers { if spent then v[n := ()] else v - {n} }

  /** Marking spends, or unspends, exactly the given nullifiers. */
  lemma {:induction false} MarkedAre(v: Nullifiers, ns: seq<Hash>, spent: bool, n: Hash)
    ensures n in Marked(v, ns, spent) <==> if n in ns then spent else n in v
  {
    if ns != [] {
      MarkedAre(v, ns[..|ns| - 1], spent, n);
      assert ns == ns[..|ns| - 1] + [ns[|ns| - 1]];
    }
  }

  /** Two trees kept under the same root are the same tree. */
  lemma SameKeySameTree(root: Tree -> Hash, a: F.FlagCache<Tree>, b: F.FlagCache<Tree>)
    requires Injective(root) && RootedCache(root, a) && RootedCache(root, b)
    ensures forall k :: k in a && k in b ==> a[k].value == b[k].value
  {
    forall k | k in a && k in b
      ensures a[k].value == b[k].value
    {
      assert root(a[k].value) == root(b[k].value);
    }
  }

  // ---- the empty tree

  /** The view v, with the empty tree as an anchor. */
  function WithEmpty(root: Tree -> Hash, v: View): View { v.(anchors := Answered(root, v.anchors)) }

  /** w is v, but for the empty tree if that is regained. */
  ghost predicate Regained(root: Tree -> Hash, again: bool, v: View, w: View) {
    && w == (if again then WithEmpty(root, v) else v)
    && (again ==> root(EMPTY_TREE) !in v.anchors)
  }

  /** A layer over a view that regains the empty tree: it cannot hold an unmodified entry for it. */
  lemma OverRegains(root: Tree -> Hash, l: Layer, v: View)
    requires LayerOk(root, l, v) && ViewOk(root, v) && root(EMPTY_TREE) !in v.anchors
    ensures LayerOk(root, l, WithEmpty(root, v)) && ViewOk(root, WithEmpty(root, v))
    ensures Regained(root, root(EMPTY_TREE) !in l.anchors, Over(l, v), Over(l, WithEmpty(root, v)))
  {
    var empty, w := root(EMPTY_TREE), WithEmpty(root, v);
    forall k | k in l.anchors
      ensures F.EntryOk(l.anchors[k], k, w.anchors)
    {
      assert F.EntryOk(l.anchors[k], k, v.anchors);
    }
    var now, was := F.See(l.anchors, w.anchors), F.See(l.anchors, v.anchors);
    F.SameView(now, if empty !in l.anchors then Answered(root, was) else was);
  }
}
