/**
 Writing the entries of a child cache into its parent, one by one and in no particular
 order, erasing each from the batch: afterwards the parent shows what the child showed.
 */
module CoinsBatch {
  import opened CoinsModel
  import opened CoinsLayer

  lemma HasEntry<K, V>(m: map<K, V>)
    requires m != map[]
    ensures exists k :: k in m
  {
    assert (forall k :: k !in m) ==> m == map[];
  }

  /** threw tells whether a misapplied FRESH flag was met; it never is. */
  method WriteCoins(child: Cache, parent: Cache, ghost base: Coins) returns (merged: Cache, threw: bool)
    requires CacheOk(parent, base) && CacheOk(child, See(parent, base))
    ensures !threw && CacheOk(merged, base)
    ensures See(merged, base) == See(child, See(parent, base))
  {
    var pending := child;
    merged, threw := parent, false;
    WriteStarts(child, See(parent, base));
    while pending != map[] && !threw
      invariant !threw && CacheOk(merged, base)
      invariant HalfWritten(See(merged, base), child, pending, See(parent, base))
      decreases |pending|
    {
      HasEntry(pending);
      var o :| o in pending;
      WriteNext(See(merged, base), child, pending, See(parent, base), o);
      MergeKeeps(merged, base, o, pending[o]);
      if MergeThrows(merged, o, pending[o]) {
        threw := true;
      } else {
        merged := Merge(merged, o, pending[o]);
      }
      pending := pending - {o};
    }
    WriteEnds(See(merged, base), child, See(parent, base));
  }

  /** Every entry has its value from one of the caches, and only the parent's are unmodified. */
  ghost predicate MixOf<V>(merged: F.FlagCache<V>, child: F.FlagCache<V>, parent: F.FlagCache<V>) {
    && (forall k :: k in merged ==>
      (k in parent && merged[k].value == parent[k].value) || (k in child && merged[k].value == child[k].value))
    && (forall k :: k in merged && !merged[k].dirty ==> k in parent && merged[k] == parent[k])
  }

  /** An entry of the child and one already merged under the same key have the same value. */
  lemma MergeMixes<V>(merged: F.FlagCache<V>, child: F.FlagCache<V>, parent: F.FlagCache<V>, k: Hash)
    requires MixOf(merged, child, parent) && k in child
    requires forall k :: k in child && k in parent ==> child[k].value == parent[k].value
    ensures k in merged ==> merged[k].value == child[k].value
    ensures MixOf(F.Merge(merged, k, child[k]), child, parent)
  {
  }

  /** Nullifiers and anchors: a key both caches have stands for the same thing in both. */
  method WriteFlags<V>(child: F.FlagCache<V>, parent: F.FlagCache<V>, ghost base: map<Hash, V>)
    returns (merged: F.FlagCache<V>)
    requires F.CacheOk(parent, base) && F.CacheOk(child, F.See(parent, base))
    requires forall k :: k in child && k in parent ==> child[k].value == parent[k].value
    ensures F.CacheOk(merged, base)
    ensures F.See(merged, base) == F.See(child, F.See(parent, base))
    ensures MixOf(merged, child, parent)
  {
    var pending := child;
    merged := parent;
    F.WriteStarts(child, F.See(parent, base));
    while pending != map[]
      invariant F.CacheOk(merged, base)
      invariant F.HalfWritten(F.See(merged, base), child, pending, F.See(parent, base))
      invariant MixOf(merged, child, parent)
      decreases |pending|
    {
      HasEntry(pending);
      var k :| k in pending;
      F.WriteNext(F.See(merged, base), child, pending, F.See(parent, base), k);
      MergeMixes(merged, child, parent, k);
      F.MergeKeeps(merged, base, k, pending[k]);
      merged := F.Merge(merged, k, pending[k]);
      pending := pending - {k};
    }
    F.WriteEnds(F.See(merged, base), child, F.See(parent, base));
  }

  // ---- into the database

  method WriteCoinsToDb(child: Cache, coins: Coins) returns (written: Coins)
    requires CacheOk(child, coins)
    ensures written == See(child, coins)
  {
    var pending := child;
    written := coins;
    WriteStarts(child, coins);
    while pending != map[]
      invariant HalfWritten(written, child, pending, coins)
      decreases |pending|
    {
      HasEntry(pending);
      var o :| o in pending;
      WriteNext(written, child, pending, coins, o);
      DbWriteCoinIs(written, o, pending[o]);
      written := DbWriteCoin(written, o, pending[o]);
      pending := pending - {o};
    }
    WriteEnds(written, child, coins);
  }

  method WriteNullifiersToDb(child: F.FlagCache<()>, nullifiers: Nullifiers) returns (written: Nullifiers)
    requires F.CacheOk(child, nullifiers)
    ensures written == F.See(child, nullifiers)
  {
    var pending := child;
    written := nullifiers;
    F.WriteStarts(child, nullifiers);
    while pending != map[]
      invariant F.HalfWritten(written, child, pending, nullifiers)
      decreases |pending|
    {
      HasEntry(pending);
      var k :| k in pending;
      F.WriteNext(written, child, pending, nullifiers, k);
      DbWriteNullifierIs(written, k, pending[k]);
      written := DbWriteNullifier(written, k, pending[k]);
      pending := pending - {k};
    }
    F.WriteEnds(written, child, nullifiers);
  }

  /** What the database answers about anchors when it stores stored. */
  function Answered(root: Tree -> Hash, stored: Anchors): Anchors { stored[root(EMPTY_TREE) := EMPTY_TREE] }

  /** Does the batch withdraw the empty tree? */
  predicate BatchWithdrawsEmpty(root: Tree -> Hash, child: F.FlagCache<Tree>) {
    root(EMPTY_TREE) in child && WithdrawsEmpty(root(EMPTY_TREE), root(EMPTY_TREE), child[root(EMPTY_TREE)])
  }

  /** How far the anchors of the batch have been written; the empty tree is never stored. */
  ghost predicate AnchorsHalfWritten(empty: Hash, child: F.FlagCache<Tree>, pending: F.FlagCache<Tree>, before: Anchors,
                                     written: Anchors) {
    && (forall k :: k in pending ==> k in child && pending[k] == child[k])
    && (forall k :: k != empty ==> F.Agree(written, if k in pending then before else F.See(child, before), k))
  }

  lemma AnchorsWriteNext(empty: Hash, child: F.FlagCache<Tree>, pending: F.FlagCache<Tree>, before: Anchors,
                         written: Anchors, k: Hash)
    requires F.CacheOk(child, before) && AnchorsHalfWritten(empty, child, pending, before, written) && k in pending
    ensures AnchorsHalfWritten(empty, child, pending - {k}, before, DbWriteAnchor(empty, written, k, pending[k]))
  {
    var then_ := DbWriteAnchor(empty, written, k, pending[k]);
    forall x | x != empty
      ensures F.Agree(then_, if x in pending - {k} then before else F.See(child, before), x)
    {
      assert F.Agree(written, if x in pending then before else F.See(child, before), x);
    }
  }

  lemma AnchorsWriteEnds(root: Tree -> Hash, child: F.FlagCache<Tree>, before: Anchors, written: Anchors)
    requires AnchorsHalfWritten(root(EMPTY_TREE), child, map[], before, written)
    ensures Answered(root, written) == Answered(root, F.See(child, before))
  {
    var none: F.FlagCache<Tree> := map[];
    forall k
      ensures F.Agree(Answered(root, written), Answered(root, F.See(child, before)), k)
    {
      if k != root(EMPTY_TREE) {
        assert F.Agree(written, if k in none then before else F.See(child, before), k);
      }
    }
    F.SameView(Answered(root, written), Answered(root, F.See(child, before)));
  }

  /** A cache over a view that has the empty tree shows it unless the cache withdraws it. */
  lemma ShowsEmpty(root: Tree -> Hash, child: F.FlagCache<Tree>, before: Anchors)
    requires Injective(root) && RootedCache(root, child) && Rooted(root, before) && F.CacheOk(child, before)
    requires root(EMPTY_TREE) in before
    ensures var v := F.See(child, before);
      && (root(EMPTY_TREE) in v <==> !BatchWithdrawsEmpty(root, child))
      && (Answered(root, v) == v <==> !BatchWithdrawsEmpty(root, child))
      && Rooted(root, Answered(root, v))
  {
    var v, empty := F.See(child, before), root(EMPTY_TREE);
    if !BatchWithdrawsEmpty(root, child) {
      assert root(v[empty]) == root(EMPTY_TREE);
      F.SameView(Answered(root, v), v);
    } else {
      assert empty in Answered(root, v) && empty !in v;
    }
  }

  /**
   The database answers as the cache did, and always has the empty tree; so it follows the batch
   exactly when the batch does not withdraw that.
   */
  method WriteAnchorsToDb(root: Tree -> Hash, child: F.FlagCache<Tree>, stored: Anchors) returns (written: Anchors)
    requires Injective(root) && RootedCache(root, child) && Rooted(root, Answered(root, stored))
    requires F.CacheOk(child, Answered(root, stored))
    ensures Rooted(root, Answered(root, written))
    ensures Answered(root, written) == Answered(root, F.See(child, Answered(root, stored)))
    ensures Answered(root, written) == F.See(child, Answered(root, stored)) <==> !BatchWithdrawsEmpty(root, child)
  {
    var pending, empty := child, root(EMPTY_TREE);
    ghost var before := Answered(root, stored);
    written := stored;
    AnchorsWriteStarts(empty, child, stored);
    while pending != map[]
      invariant AnchorsHalfWritten(empty, child, pending, before, written)
      decreases |pending|
    {
      HasEntry(pending);
      var k :| k in pending;
      AnchorsWriteNext(empty, child, pending, before, written, k);
      written := DbWriteAnchor(empty, written, k, pending[k]);
      pending := pending - {k};
    }
    AnchorsWriteEnds(root, child, before, written);
    ShowsEmpty(root, child, before);
  }

  lemma AnchorsWriteStarts(empty: Hash, child: F.FlagCache<Tree>, stored: Anchors)
    ensures AnchorsHalfWritten(empty, child, child, stored[empty := EMPTY_TREE], stored)
  {
    var before := stored[empty := EMPTY_TREE];
    forall k | k != empty
      ensures F.Agree(stored, if k in child then before else F.See(child, before), k)
    {
    }
  }
}
