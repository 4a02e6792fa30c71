/**
 The cache layers of Sapling nullifiers and anchors. An entry says whether its key is
 entered and what it stands for: nothing for a nullifier, a commitment tree for an
 anchor. Merging into a parent that already has the key copies only the entered flag.
 */
module FlagCaches {
  type Hash = nat

  datatype FlagEntry<V> = FlagEntry(entered: bool, value: V, dirty: bool)
  type FlagCache<V> = map<Hash, FlagEntry<V>>

  /** The entered keys a cache shows over a parent that shows base. */
  function See<V>(cache: FlagCache<V>, base: map<Hash, V>): (v: map<Hash, V>)
    ensures forall k :: k in v <==> if k in cache then cache[k].entered else k in base
    ensures forall k :: k in v ==> v[k] == if k in cache then cache[k].value else base[k]
  {
    map k | k in cache.Keys + base.Keys && (k in cache ==> cache[k].entered) ::
      if k in cache then cache[k].value else base[k]
  }

  ghost predicate Agree<V>(v: map<Hash, V>, w: map<Hash, V>, k: Hash) {
    (k in v <==> k in w) && (k in v ==> v[k] == w[k])
  }

  /** An entry that is not dirty says what the parent says. */
  ghost predicate EntryOk<V>(e: FlagEntry<V>, k: Hash, base: map<Hash, V>) {
    !e.dirty ==> (e.entered <==> k in base) && (e.entered ==> base[k] == e.value)
  }

  ghost predicate CacheOk<V>(cache: FlagCache<V>, base: map<Hash, V>) {
    forall k :: k in cache ==> EntryOk(cache[k], k, base)
  }

  lemma SameView<V>(v: map<Hash, V>, w: map<Hash, V>)
    requires forall k :: Agree(v, w, k)
    ensures v == w
  {
    forall k
      ensures k in v <==> k in w
    {
      assert Agree(v, w, k);
    }
    forall k | k in v
      ensures v[k] == w[k]
    {
      assert Agree(v, w, k);
    }
  }

  /** An empty cache shows what the parent shows. */
  lemma SeeThrough<V>(base: map<Hash, V>)
    ensures See(map[], base) == base
  {
    SameView(See(map[], base), base);
  }

  /** Remember the parent's answer about k. */
  lemma FillKeeps<V>(cache: FlagCache<V>, base: map<Hash, V>, k: Hash, e: FlagEntry<V>)
    requires CacheOk(cache, base) && k !in cache && !e.dirty && EntryOk(e, k, base)
    ensures CacheOk(cache[k := e], base) && See(cache[k := e], base) == See(cache, base)
  {
    SameView(See(cache[k := e], base), See(cache, base));
  }

  /** What an entry makes of a view. */
  function Overlay<V>(v: map<Hash, V>, k: Hash, e: FlagEntry<V>): map<Hash, V> {
    if e.entered then v[k := e.value] else v - {k}
  }

  lemma SetKeeps<V>(cache: FlagCache<V>, base: map<Hash, V>, k: Hash, e: FlagEntry<V>)
    requires CacheOk(cache, base) && e.dirty
    ensures CacheOk(cache[k := e], base) && See(cache[k := e], base) == Overlay(See(cache, base), k, e)
  {
    SameView(See(cache[k := e], base), Overlay(See(cache, base), k, e));
  }

  // ---- writing a child's entries into the parent

  function Merge<V>(cache: FlagCache<V>, k: Hash, e: FlagEntry<V>): FlagCache<V> {
    if !e.dirty then cache
    else if k !in cache then cache[k := e]
    else if cache[k].entered != e.entered then cache[k := cache[k].(entered := e.entered, dirty := true)]
    else cache
  }

  lemma MergeKeeps<V>(cache: FlagCache<V>, base: map<Hash, V>, k: Hash, e: FlagEntry<V>)
    requires CacheOk(cache, base) && EntryOk(e, k, See(cache, base))
    requires k in cache ==> cache[k].value == e.value
    ensures CacheOk(Merge(cache, k, e), base)
    ensures See(Merge(cache, k, e), base) == Overlay(See(cache, base), k, e)
  {
    SameView(See(Merge(cache, k, e), base), Overlay(See(cache, base), k, e));
  }

  /** The part of a batch already written shows the child, the rest still the old parent. */
  ghost predicate HalfWritten<V>(now: map<Hash, V>, child: FlagCache<V>, pending: FlagCache<V>, before: map<Hash, V>) {
    && (forall k :: k in pending ==> k in child && pending[k] == child[k])
    && (forall k :: Agree(now, if k in pending then before else See(child, before), k))
  }

  lemma WriteStarts<V>(child: FlagCache<V>, before: map<Hash, V>)
    ensures HalfWritten(before, child, child, before)
  {
    forall k
      ensures Agree(before, if k in child then before else See(child, before), k)
    {
    }
  }

  lemma WriteNext<V>(now: map<Hash, V>, child: FlagCache<V>, pending: FlagCache<V>, before: map<Hash, V>, k: Hash)
    requires HalfWritten(now, child, pending, before) && k in pending && CacheOk(child, before)
    ensures EntryOk(pending[k], k, now)
    ensures HalfWritten(Overlay(now, k, pending[k]), child, pending - {k}, before)
  {
    assert Agree(now, before, k);
    var then_ := Overlay(now, k, pending[k]);
    forall x
      ensures Agree(then_, if x in pending - {k} then before else See(child, before), x)
    {
      assert Agree(now, if x in pending then before else See(child, before), x);
    }
  }

  lemma WriteEnds<V>(now: map<Hash, V>, child: FlagCache<V>, before: map<Hash, V>)
    requires HalfWritten(now, child, map[], before)
    ensures now == See(child, before)
  {
    var none: FlagCache<V> := map[];
    forall k
      ensures Agree(now, See(child, before), k)
    {
      assert Agree(now, if k in none then before else See(child, before), k);
    }
    SameView(now, See(child, before));
  }
}
