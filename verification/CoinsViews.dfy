/**
 What the views of a stack of coin caches answer: a database at the bottom and write-back
 caches above it, view k + 1 being layer k over view k. Which views a change of a layer
 shows in.
 */
module CoinsViews {
  import opened CoinsLayer
  import opened CoinsBatch
  import opened CoinsChanges

  /** View k is the layer below it over view k - 1, and that layer keeps its promises; view 0 is the database. */
  ghost predicate ViewAt(root: Tree -> Hash, db: Database, layers: seq<Layer>, views: seq<View>, k: nat)
    requires k <= |layers| < |views|
  {
    && ViewOk(root, views[k])
    && (k == 0 ==> views[0] == DbView(root, db))
    && (k > 0 ==> LayerOk(root, layers[k - 1], views[k - 1]) && views[k] == Over(layers[k - 1], views[k - 1]))
  }

  ghost predicate StackOk(root: Tree -> Hash, db: Database, layers: seq<Layer>, views: seq<View>) {
    && Injective(root) && |views| == |layers| + 1
    && forall k :: 0 <= k <= |layers| ==> ViewAt(root, db, layers, views, k)
  }

  /** What the stack promises about layer k. */
  lemma LayerAt(root: Tree -> Hash, db: Database, layers: seq<Layer>, views: seq<View>, k: nat)
    requires StackOk(root, db, layers, views) && k < |layers|
    ensures LayerOk(root, layers[k], views[k]) && ViewOk(root, views[k])
    ensures views[k + 1] == Over(layers[k], views[k]) && ViewOk(root, views[k + 1])
  {
    assert ViewAt(root, db, layers, views, k) && ViewAt(root, db, layers, views, k + 1);
  }

  /** View 0 is what the database answers. */
  lemma BottomAt(root: Tree -> Hash, db: Database, layers: seq<Layer>, views: seq<View>)
    requires StackOk(root, db, layers, views)
    ensures views[0] == DbView(root, db)
  {
    assert ViewAt(root, db, layers, views, 0);
  }

  // ---- changing one layer

  /** A change of a layer that its own view does not show is shown by no view. */
  lemma UnseenChange(root: Tree -> Hash, db: Database, layers: seq<Layer>, views: seq<View>, k: nat, l: Layer)
    requires StackOk(root, db, layers, views) && k < |layers| && Unseen(root, layers[k], l, views[k])
    ensures StackOk(root, db, layers[k := l], views)
  {
    var after := layers[k := l];
    forall j | 0 <= j <= |layers|
      ensures ViewAt(root, db, after, views, j)
    {
      assert ViewAt(root, db, layers, views, j);
    }
  }

  /** A change of the top layer shows in the top view only. */
  lemma TopChange(root: Tree -> Hash, db: Database, layers: seq<Layer>, below: seq<View>, top: View, l: Layer)
    requires StackOk(root, db, layers, below + [top]) && layers != [] && LayerOk(root, l, below[|layers| - 1])
    ensures StackOk(root, db, layers[|layers| - 1 := l], below + [Over(l, below[|layers| - 1])])
  {
    var n := |layers|;
    var views, now, after := below + [top], below + [Over(l, below[n - 1])], layers[n - 1 := l];
    LayerAt(root, db, layers, views, n - 1);
    OverIsOk(root, l, below[n - 1]);
    forall j | 0 <= j < n
      ensures ViewAt(root, db, after, now, j)
    {
      assert ViewAt(root, db, layers, views, j);
    }
  }

  const EMPTY_LAYER := Layer(map[], map[], map[], 0, 0)

  lemma PushKeeps(root: Tree -> Hash, db: Database, layers: seq<Layer>, views: seq<View>)
    requires StackOk(root, db, layers, views)
    ensures StackOk(root, db, layers + [EMPTY_LAYER], views + [views[|layers|]])
  {
    var n := |layers|;
    EmptiedIsOk(root, EMPTY_LAYER, views[n]);
    var after, now := layers + [EMPTY_LAYER], views + [views[n]];
    forall j | 0 <= j <= n
      ensures ViewAt(root, db, after, now, j)
    {
      assert ViewAt(root, db, layers, views, j);
    }
    assert ViewAt(root, db, layers, views, n);
  }

  lemma PopKeeps(root: Tree -> Hash, db: Database, layers: seq<Layer>, views: seq<View>)
    requires StackOk(root, db, layers, views) && layers != []
    ensures StackOk(root, db, layers[..|layers| - 1], views[..|layers|])
  {
    var after, now := layers[..|layers| - 1], views[..|layers|];
    forall j | 0 <= j < |layers|
      ensures ViewAt(root, db, after, now, j)
    {
      assert ViewAt(root, db, layers, views, j);
    }
  }

  // ---- flushing into a cache

  /**
   Flushing child, which showed shown over a parent over base: afterwards the parent and the
   emptied child both show shown. The parent takes over the child's hashes even when they
   were never set, and then shows those of base.
   */
  ghost predicate FlushedToParent(shown: View, child: Layer, base: View, parentShows: View, childShows: View) {
    && SameMaps(parentShows, shown) && childShows == parentShows
    && parentShows.block == (if child.block != 0 then child.block else base.block)
    && parentShows.anchor == (if child.anchor != 0 then child.anchor else base.anchor)
  }

  lemma FlushAgrees(root: Tree -> Hash, child: Layer, merged: Layer, shown: View, base: View)
    requires merged.block == child.block && merged.anchor == child.anchor && SameMaps(Over(merged, base), shown)
    ensures FlushedToParent(shown, child, base, Over(merged, base), Over(Emptied(child), Over(merged, base)))
  {
    EmptiedIsOk(root, child, Over(merged, base));
  }

  /**
   The best block and anchor survive a flush exactly when the child had them or the parent had
   none of its own to lose.
   */
  lemma HashesSurviveFlush(child: Layer, parentView: View, base: View, parentShows: View, childShows: View)
    requires FlushedToParent(Over(child, parentView), child, base, parentShows, childShows)
    ensures parentShows.block == Over(child, parentView).block <==> child.block != 0 || parentView.block == base.block
    ensures parentShows.anchor == Over(child, parentView).anchor <==>
      child.anchor != 0 || parentView.anchor == base.anchor
  {
  }

  /** w has the maps of v, and is v if nothing changed at all. */
  ghost predicate Alike(same: bool, v: View, w: View) { SameMaps(w, v) && (same ==> w == v) }

  /** From view q on the coins, anchors and nullifiers are as before; all is, if view q itself is. */
  ghost predicate SameAbove(views: seq<View>, after: seq<View>, q: nat) {
    && q < |views| == |after|
    && forall j :: q <= j < |views| ==> Alike(after[q] == views[q], views[j], after[j])
  }

  /** What view j shows over view q if that shows base. */
  ghost function ViewFrom(base: View, layers: seq<Layer>, q: nat, j: nat): View
    requires q <= j <= |layers|
  {
    if j == q then base else Over(layers[j - 1], ViewFrom(base, layers, q, j - 1))
  }

  /** A layer stays sound over a view with the same three maps, and shows the same three. */
  lemma AlikeOver(root: Tree -> Hash, l: Layer, same: bool, v: View, w: View)
    requires LayerOk(root, l, v) && Alike(same, v, w)
    ensures LayerOk(root, l, w) && Alike(same, Over(l, v), Over(l, w))
  {
  }

  lemma {:induction false} AlikeFrom(root: Tree -> Hash, db: Database, layers: seq<Layer>, views: seq<View>, base: View,
                                     q: nat, j: nat)
    requires StackOk(root, db, layers, views) && q <= j <= |layers| && SameMaps(base, views[q])
    ensures Alike(base == views[q], views[j], ViewFrom(base, layers, q, j))
    ensures ViewOk(root, ViewFrom(base, layers, q, j))
    ensures q < j ==> LayerOk(root, layers[j - 1], ViewFrom(base, layers, q, j - 1))
    decreases j
  {
    assert ViewAt(root, db, layers, views, j);
    if q < j {
      AlikeFrom(root, db, layers, views, base, q, j - 1);
      AlikeOver(root, layers[j - 1], base == views[q], views[j - 1], ViewFrom(base, layers, q, j - 1));
    }
  }

  /** The views after layer p + 1 was written into layer p, which is merged then. */
  ghost function FlushedViews(layers: seq<Layer>, views: seq<View>, p: nat, merged: Layer): (after: seq<View>)
    requires p + 2 <= |layers| < |views|
    ensures |after| == |layers| + 1
  {
    var parent := Over(merged, views[p]);
    var child := Over(Emptied(layers[p + 1]), parent);
    seq(|layers| + 1, j requires 0 <= j <= |layers| =>
      if j <= p then views[j] else if j == p + 1 then parent else ViewFrom(child, layers, p + 2, j))
  }

  lemma FlushLayers(root: Tree -> Hash, db: Database, layers: seq<Layer>, views: seq<View>, p: nat, merged: Layer)
    requires StackOk(root, db, layers, views) && p + 2 <= |layers| && LayerOk(root, merged, views[p])
    requires merged.block == layers[p + 1].block && merged.anchor == layers[p + 1].anchor
    requires SameMaps(Over(merged, views[p]), views[p + 2])
    ensures var after := FlushedViews(layers, views, p, merged);
      && FlushedToParent(views[p + 2], layers[p + 1], views[p], after[p + 1], after[p + 2])
      && StackOk(root, db, layers[p := merged][p + 1 := Emptied(layers[p + 1])], after)
      && after[..p + 1] == views[..p + 1] && SameAbove(views, after, p + 2)
  {
    var after, now := FlushedViews(layers, views, p, merged), layers[p := merged][p + 1 := Emptied(layers[p + 1])];
    FlushAgrees(root, layers[p + 1], merged, views[p + 2], views[p]);
    forall j | 0 <= j <= |layers|
      ensures ViewAt(root, db, now, after, j)
    {
      if j <= p {
        FlushedBelow(root, db, layers, views, after, now, j);
      } else if j <= p + 2 {
        FlushedNear(root, db, layers, views, p, merged, j);
      } else {
        FlushedAbove(root, db, layers, views, after, now, p + 2, j);
      }
    }
    forall j | p + 2 <= j <= |layers|
      ensures Alike(after[p + 2] == views[p + 2], views[j], after[j])
    {
      AlikeFrom(root, db, layers, views, after[p + 2], p + 2, j);
    }
  }

  lemma FlushedBelow(root: Tree -> Hash, db: Database, layers: seq<Layer>, views: seq<View>, after: seq<View>,
                     now: seq<Layer>, j: nat)
    requires StackOk(root, db, layers, views) && j <= |layers| == |now| < |after|
    requires (forall i :: 0 <= i < j ==> now[i] == layers[i]) && (forall i :: 0 <= i <= j ==> after[i] == views[i])
    ensures ViewAt(root, db, now, after, j)
  {
    assert ViewAt(root, db, layers, views, j);
  }

  /** The parent and the emptied child both show what the child showed. */
  lemma FlushedNear(root: Tree -> Hash, db: Database, layers: seq<Layer>, views: seq<View>, p: nat, merged: Layer,
                    j: nat)
    requires StackOk(root, db, layers, views) && p + 2 <= |layers| && p < j <= p + 2 && LayerOk(root, merged, views[p])
    requires SameMaps(Over(merged, views[p]), views[p + 2])
    ensures ViewAt(root, db, layers[p := merged][p + 1 := Emptied(layers[p + 1])],
      FlushedViews(layers, views, p, merged), j)
  {
    assert ViewAt(root, db, layers, views, p + 2);
    EmptiedIsOk(root, layers[p + 1], Over(merged, views[p]));
  }

  lemma FlushedAbove(root: Tree -> Hash, db: Database, layers: seq<Layer>, views: seq<View>, after: seq<View>,
                     now: seq<Layer>, q: nat, j: nat)
    requires StackOk(root, db, layers, views) && q < j <= |layers| == |now| < |after| && SameMaps(after[q], views[q])
    requires now[j - 1] == layers[j - 1] && after[j] == ViewFrom(after[q], layers, q, j)
    requires after[j - 1] == ViewFrom(after[q], layers, q, j - 1)
    ensures ViewAt(root, db, now, after, j)
  {
    AlikeFrom(root, db, layers, views, after[q], q, j);
  }

  // ---- flushing into the database

  /**
   Layer 0 is written to the database, which cannot record that the empty tree was
   withdrawn. View j has that anchor again unless a layer above has an entry for it.
   */
  predicate Regains(root: Tree -> Hash, layers: seq<Layer>, j: nat)
    requires j <= |layers|
  {
    if j == 0 then false
    else if j == 1 then BatchWithdrawsEmpty(root, layers[0].anchors)
    else Regains(root, layers, j - 1) && root(EMPTY_TREE) !in layers[j - 1].anchors
  }

  ghost predicate RegainsAt(root: Tree -> Hash, layers: seq<Layer>, views: seq<View>, after: seq<View>, j: nat)
    requires j <= |layers| && j < |views| && j < |after|
  {
    Regained(root, Regains(root, layers, j), views[j], after[j])
  }

  /**
   The database was given all that view 1 showed; the views are as before but for the empty tree
   where it is regained.
   */
  ghost predicate FlushedToDb(root: Tree -> Hash, layers: seq<Layer>, views: seq<View>, after: seq<View>) {
    && 0 < |layers| < |views| == |after| && after[0] == WithEmpty(root, views[1])
    && forall j :: 1 <= j <= |layers| ==> RegainsAt(root, layers, views, after, j)
  }

  ghost function FlushedDbViews(root: Tree -> Hash, layers: seq<Layer>, views: seq<View>): (after: seq<View>)
    requires 0 < |layers| < |views|
    ensures |after| == |layers| + 1
  {
    seq(|layers| + 1, j requires 0 <= j <= |layers| =>
      if j == 0 then WithEmpty(root, views[1]) else if Regains(root, layers, j) then WithEmpty(root, views[j])
        else views[j])
  }

  /**
   View 1 shows, over the database it was written to, what it showed; with the empty tree if it
   had withdrawn that.
   */
  lemma FirstRegains(root: Tree -> Hash, db: Database, layers: seq<Layer>, views: seq<View>, db': Database)
    requires StackOk(root, db, layers, views) && layers != []
    requires DbView(root, db') == WithEmpty(root, views[1]) && db'.block == layers[0].block != 0
    ensures var after, now := FlushedDbViews(root, layers, views), layers[0 := Emptied(layers[0])];
      && ViewAt(root, db', now, after, 0) && ViewAt(root, db', now, after, 1)
      && RegainsAt(root, layers, views, after, 1)
      && after[0] == after[1] && (after[0] == views[1] <==> !BatchWithdrawsEmpty(root, layers[0].anchors))
  {
    LayerAt(root, db, layers, views, 0);
    BottomAt(root, db, layers, views);
    ShowsEmpty(root, layers[0].anchors, views[0].anchors);
    EmptiedIsOk(root, layers[0], WithEmpty(root, views[1]));
  }

  lemma {:induction false} LaterRegains(root: Tree -> Hash, db: Database, layers: seq<Layer>, views: seq<View>,
                                        db': Database, j: nat)
    requires StackOk(root, db, layers, views) && 1 < j <= |layers|
    requires RegainsAt(root, layers, views, FlushedDbViews(root, layers, views), j - 1)
    ensures var after := FlushedDbViews(root, layers, views);
      ViewAt(root, db', layers[0 := Emptied(layers[0])], after, j) && RegainsAt(root, layers, views, after, j)
  {
    LayerAt(root, db, layers, views, j - 1);
    if Regains(root, layers, j - 1) { OverRegains(root, layers[j - 1], views[j - 1]); }
    OverIsOk(root, layers[j - 1], FlushedDbViews(root, layers, views)[j - 1]);
  }

  lemma {:induction false} AllRegain(root: Tree -> Hash, db: Database, layers: seq<Layer>, views: seq<View>,
                                     db': Database, j: nat)
    requires StackOk(root, db, layers, views) && 1 <= j <= |layers|
    requires DbView(root, db') == WithEmpty(root, views[1]) && db'.block == layers[0].block != 0
    ensures var after := FlushedDbViews(root, layers, views);
      ViewAt(root, db', layers[0 := Emptied(layers[0])], after, j) && RegainsAt(root, layers, views, after, j)
  {
    if j == 1 {
      FirstRegains(root, db, layers, views, db');
    } else {
      AllRegain(root, db, layers, views, db', j - 1);
      LaterRegains(root, db, layers, views, db', j);
    }
  }

  lemma FlushDatabase(root: Tree -> Hash, db: Database, layers: seq<Layer>, views: seq<View>, db': Database)
    requires StackOk(root, db, layers, views) && layers != []
    requires DbView(root, db') == WithEmpty(root, views[1]) && db'.block == layers[0].block != 0
    ensures var after := FlushedDbViews(root, layers, views);
      && StackOk(root, db', layers[0 := Emptied(layers[0])], after) && FlushedToDb(root, layers, views, after)
      && after[0] == after[1] && (after[0] == views[1] <==> !BatchWithdrawsEmpty(root, layers[0].anchors))
  {
    var after, now := FlushedDbViews(root, layers, views), layers[0 := Emptied(layers[0])];
    FirstRegains(root, db, layers, views, db');
    forall j | 1 <= j <= |layers|
      ensures ViewAt(root, db', now, after, j) && RegainsAt(root, layers, views, after, j)
    {
      AllRegain(root, db, layers, views, db', j);
    }
  }
}
