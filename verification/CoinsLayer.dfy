/**
 A whole cache layer: coins, nullifiers, anchors and the two best hashes, over the view
 of its parent; and the database at the bottom of every stack.
 */
module CoinsLayer {
  import opened CoinsModel
  import F = FlagCaches

  type Hash = F.Hash

  /** A Sapling commitment tree, known by the commitments in it; Root stands for its root hash. */
  type Tree = seq<nat>
  const EMPTY_TREE: Tree := []

  type Anchors = map<Hash, Tree>
  type Nullifiers = map<Hash, ()>

  /** Everything a view answers: coins, anchors, nullifiers, best block, best anchor. */
  datatype View = View(coins: Coins, anchors: Anchors, nullifiers: Nullifiers, block: Hash, anchor: Hash)

  /** The fields of a cache. A hash of 0 is one not asked for yet. */
  datatype Layer = Layer(coins: Cache, anchors: F.FlagCache<Tree>, nullifiers: F.FlagCache<()>, block: Hash,
    anchor: Hash)

  function Over(l: Layer, base: View): View {
    View(See(l.coins, base.coins), F.See(l.anchors, base.anchors), F.See(l.nullifiers, base.nullifiers),
         if l.block != 0 then l.block else base.block, if l.anchor != 0 then l.anchor else base.anchor)
  }

  /** Trees are stored under their root. */
  ghost predicate Rooted(root: Tree -> Hash, m: Anchors) { forall k :: k in m ==> root(m[k]) == k }
  ghost predicate RootedCache(root: Tree -> Hash, m: F.FlagCache<Tree>) { forall k :: k in m ==> root(m[k].value) == k }

  ghost predicate Injective(root: Tree -> Hash) { forall t, u :: root(t) == root(u) ==> t == u }

  ghost predicate ViewOk(root: Tree -> Hash, v: View) { Unspent(v.coins) && Rooted(root, v.anchors) }

  /** Only an anchor that was found is remembered without being changed. */
  ghost predicate FoundAnchors(m: F.FlagCache<Tree>) { forall k :: k in m && !m[k].dirty ==> m[k].entered }

  ghost predicate LayerOk(root: Tree -> Hash, l: Layer, base: View) {
    && CacheOk(l.coins, base.coins) && F.CacheOk(l.nullifiers, base.nullifiers)
    && F.CacheOk(l.anchors, base.anchors) && RootedCache(root, l.anchors) && FoundAnchors(l.anchors)
  }

  lemma OverIsOk(root: Tree -> Hash, l: Layer, base: View)
    requires LayerOk(root, l, base) && ViewOk(root, base)
    ensures ViewOk(root, Over(l, base))
  {
  }

  /** The view base does not tell layer m from layer l. */
  ghost predicate Unseen(root: Tree -> Hash, l: Layer, m: Layer, base: View) {
    LayerOk(root, m, base) && Over(m, base) == Over(l, base)
  }

  /** The same coins, anchors and nullifiers. */
  ghost predicate SameMaps(v: View, w: View) {
    v.coins == w.coins && v.anchors == w.anchors && v.nullifiers == w.nullifiers
  }

  /** A cache after its entries have been written out; the hashes stay. */
  function Emptied(l: Layer): Layer { Layer(map[], map[], map[], l.block, l.anchor) }

  lemma EmptiedIsOk(root: Tree -> Hash, l: Layer, base: View)
    ensures LayerOk(root, Emptied(l), base)
    ensures Over(Emptied(l), base)
      == base.(block := if l.block != 0 then l.block else base.block,
               anchor := if l.anchor != 0 then l.anchor else base.anchor)
  {
    SeeThrough(base.coins);
    F.SeeThrough(base.anchors);
    F.SeeThrough(base.nullifiers);
  }

  // ---- the database

  /** The database: unspent coins, anchors other than the empty one, spent nullifiers, the two hashes. */
  datatype Database = Database(coins: Coins, anchors: Anchors, nullifiers: Nullifiers, block: Hash, anchor: Hash)

  /** The empty tree is always an anchor, and the best one until another is written. */
  function DbView(root: Tree -> Hash, d: Database): View {
    View(d.coins, d.anchors[root(EMPTY_TREE) := EMPTY_TREE], d.nullifiers, d.block,
         if d.anchor != 0 then d.anchor else root(EMPTY_TREE))
  }

  function DbWriteCoin(d: Coins, o: OutPoint, e: Entry): Coins {
    if !e.dirty then d else if e.coin.IsSpent() then d - {o} else d[o := e.coin]
  }

  lemma DbWriteCoinIs(d: Coins, o: OutPoint, e: Entry)
    requires EntryOk(e, o, d)
    ensures DbWriteCoin(d, o, e) == Overlay(d, o, e)
  {
    SameView(DbWriteCoin(d, o, e), Overlay(d, o, e));
  }

  function DbWriteNullifier(d: Nullifiers, k: Hash, e: F.FlagEntry<()>): Nullifiers {
    if !e.dirty then d else if e.entered then d[k := ()] else d - {k}
  }

  lemma DbWriteNullifierIs(d: Nullifiers, k: Hash, e: F.FlagEntry<()>)
    requires F.EntryOk(e, k, d)
    ensures DbWriteNullifier(d, k, e) == F.Overlay(d, k, e)
  {
    assert e.value == ();
    F.SameView(DbWriteNullifier(d, k, e), F.Overlay(d, k, e));
  }

  /** The empty tree is never stored. */
  function DbWriteAnchor(empty: Hash, d: Anchors, k: Hash, e: F.FlagEntry<Tree>): Anchors {
    if !e.dirty then d
    else if !e.entered then d - {k}
    else if k != empty then d[k := e.value]
    else d
  }

  /** Does an entry withdraw the empty tree, which the database cannot record? */
  predicate WithdrawsEmpty(empty: Hash, k: Hash, e: F.FlagEntry<Tree>) { k == empty && e.dirty && !e.entered }

  /** What the database answers about anchors follows the entry exactly unless it withdraws the empty tree. */
  lemma DbWriteAnchorIs(root: Tree -> Hash, d: Anchors, k: Hash, e: F.FlagEntry<Tree>)
    requires Injective(root) && root(e.value) == k
    requires F.EntryOk(e, k, d[root(EMPTY_TREE) := EMPTY_TREE])
    ensures DbWriteAnchor(root(EMPTY_TREE), d, k, e)[root(EMPTY_TREE) := EMPTY_TREE]
        == F.Overlay(d[root(EMPTY_TREE) := EMPTY_TREE], k, e)
      <==> !WithdrawsEmpty(root(EMPTY_TREE), k, e)
  {
    var empty := root(EMPTY_TREE);
    var now := DbWriteAnchor(empty, d, k, e)[empty := EMPTY_TREE];
    var want := F.Overlay(d[empty := EMPTY_TREE], k, e);
    if WithdrawsEmpty(empty, k, e) {
      assert empty in now && empty !in want;
    } else {
      F.SameView(now, want);
    }
  }
}
