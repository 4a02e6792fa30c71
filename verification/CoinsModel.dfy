/**
 One layer of the coins cache over the unspent coins its parent shows: what the layer
 makes visible, what its DIRTY and FRESH flags promise, and how each operation acts.
 */
module CoinsModel {
  const OP_RETURN: bv8 := 0x6a
  const MAX_SCRIPT_SIZE: nat := 10000

  datatype OutPoint = OutPoint(hash: nat, n: nat)

  datatype Coin = Coin(coinBase: bool, coinStake: bool, value: int, script: seq<bv8>, height: nat) {
    predicate IsSpent() { value == -1 }
    predicate IsUnspendable() { (|script| > 0 && script[0] == OP_RETURN) || |script| > MAX_SCRIPT_SIZE }
  }

  const NULL_COIN := Coin(false, false, -1, [], 0)

  datatype Entry = Entry(coin: Coin, dirty: bool, fresh_: bool)
  type Cache = map<OutPoint, Entry>
  type Coins = map<OutPoint, Coin>

  /** The unspent coins a cache shows over a parent that shows base. */
  function See(cache: Cache, base: Coins): (v: Coins)
    ensures forall o :: o in v <==> if o in cache then !cache[o].coin.IsSpent() else o in base
    ensures forall o :: o in v ==> v[o] == if o in cache then cache[o].coin else base[o]
  {
    map o | o in cache.Keys + base.Keys && (o in cache ==> !cache[o].coin.IsSpent()) ::
      if o in cache then cache[o].coin else base[o]
  }

  /** Do two views say the same about o? */
  ghost predicate Agree(v: Coins, w: Coins, o: OutPoint) { (o in v <==> o in w) && (o in v ==> v[o] == w[o]) }

  /** What the flags of an entry promise about the parent. */
  ghost predicate EntryOk(e: Entry, o: OutPoint, base: Coins) {
    && (e.fresh_ ==> o !in base)
    && (!e.dirty ==> if e.coin.IsSpent() then o !in base else o in base && base[o] == e.coin)
  }

  ghost predicate CacheOk(cache: Cache, base: Coins) { forall o :: o in cache ==> EntryOk(cache[o], o, base) }

  /** A parent without spent coins, as See always is. */
  ghost predicate Unspent(v: Coins) { forall o :: o in v ==> !v[o].IsSpent() }

  lemma SameView(v: Coins, w: Coins)
    requires forall o :: Agree(v, w, o)
    ensures v == w
  {
    forall o
      ensures o in v <==> o in w
    {
      assert Agree(v, w, o);
    }
    forall o | o in v
      ensures v[o] == w[o]
    {
      assert Agree(v, w, o);
    }
  }

  /** An empty cache shows what the parent shows. */
  lemma SeeThrough(base: Coins)
    ensures See(map[], base) == base
  {
    SameView(See(map[], base), base);
  }

  // ---- reading

  /** The answer of GetCoin: whether there is an entry, and the coin in it, possibly spent. */
  datatype Answer = NoCoin | Found(coin: Coin)

  /** An answer is right when it is an unspent coin exactly where the view has one. */
  ghost predicate Right(a: Answer, v: Coins, o: OutPoint) {
    if o in v then a == Found(v[o]) else a.NoCoin? || a.coin.IsSpent()
  }

  /** Filling the cache with the parent's answer. */
  function Fill(cache: Cache, o: OutPoint, a: Answer): Cache {
    match a
    case NoCoin => cache
    case Found(c) => cache[o := Entry(c, false, c.IsSpent())]
  }

  lemma FillKeeps(cache: Cache, base: Coins, o: OutPoint, a: Answer)
    requires CacheOk(cache, base) && Unspent(base) && o !in cache && Right(a, base, o)
    ensures CacheOk(Fill(cache, o, a), base)
    ensures See(Fill(cache, o, a), base) == See(cache, base)
  {
    SameView(See(Fill(cache, o, a), base), See(cache, base));
  }

  function Lookup(cache: Cache, o: OutPoint): Answer { if o in cache then Found(cache[o].coin) else NoCoin }

  /** After filling, the cache itself answers right. */
  lemma FilledAnswersRight(cache: Cache, base: Coins, o: OutPoint)
    requires CacheOk(cache, base) && (o !in cache ==> o !in base)
    ensures Right(Lookup(cache, o), See(cache, base), o)
  {
  }

  // ---- writing

  /** AddCoin refuses to replace an unspent coin it was not told to expect. */
  predicate AddThrows(cache: Cache, o: OutPoint, overwrite: bool) {
    !overwrite && o in cache && !cache[o].coin.IsSpent()
  }

  function AddCoin(cache: Cache, o: OutPoint, coin: Coin, overwrite: bool): Cache {
    var e := if o in cache then cache[o] else Entry(NULL_COIN, false, false);
    cache[o := Entry(coin, true, e.fresh_ || (!overwrite && !e.dirty))]
  }

  /** May AddCoin be used without the overwrite flag? The caller can tell from the view. */
  predicate Addable(v: Coins, o: OutPoint, overwrite: bool) { overwrite || o !in v }

  lemma AddCoinKeeps(cache: Cache, base: Coins, o: OutPoint, coin: Coin, overwrite: bool)
    requires CacheOk(cache, base) && !coin.IsSpent() && Addable(See(cache, base), o, overwrite)
    ensures !AddThrows(cache, o, overwrite)
    ensures CacheOk(AddCoin(cache, o, coin, overwrite), base)
    ensures See(AddCoin(cache, o, coin, overwrite), base) == See(cache, base)[o := coin]
  {
    SameView(See(AddCoin(cache, o, coin, overwrite), base), See(cache, base)[o := coin]);
  }

  /**
   Without the overwrite flag, AddCoin throws, or misapplies FRESH, exactly when the view
   already has the coin: it throws if the coin is in this cache, and breaks the cache if
   the coin is only in the parent.
   */
  lemma AddCoinExactly(cache: Cache, base: Coins, o: OutPoint, coin: Coin, overwrite: bool)
    requires CacheOk(cache, base) && !coin.IsSpent()
    ensures (!AddThrows(cache, o, overwrite) && CacheOk(AddCoin(cache, o, coin, overwrite), base))
      <==> Addable(See(cache, base), o, overwrite)
  {
    if Addable(See(cache, base), o, overwrite) {
      AddCoinKeeps(cache, base, o, coin, overwrite);
    } else if o !in cache {
      assert !EntryOk(AddCoin(cache, o, coin, overwrite)[o], o, base);
    }
  }

  /** What a misapplied FRESH flag costs: spending the added coin brings the parent's coin back. */
  lemma MisappliedFreshResurrects(cache: Cache, base: Coins, o: OutPoint, coin: Coin)
    requires CacheOk(cache, base) && !coin.IsSpent() && o !in cache && o in base
    ensures See(SpendCoin(AddCoin(cache, o, coin, false), o), base) == See(cache, base)
    ensures o in See(SpendCoin(AddCoin(cache, o, coin, false), o), base)
  {
    assert SpendCoin(AddCoin(cache, o, coin, false), o) == cache;
  }

  function SpendCoin(cache: Cache, o: OutPoint): Cache {
    if o !in cache then cache
    else if cache[o].fresh_ then cache - {o}
    else cache[o := Entry(NULL_COIN, true, false)]
  }

  lemma SpendCoinKeeps(cache: Cache, base: Coins, o: OutPoint)
    requires CacheOk(cache, base) && (o !in cache ==> o !in base)
    ensures CacheOk(SpendCoin(cache, o), base)
    ensures See(SpendCoin(cache, o), base) == See(cache, base) - {o}
  {
    SameView(See(SpendCoin(cache, o), base), See(cache, base) - {o});
  }

  function Uncache(cache: Cache, o: OutPoint): Cache {
    if o in cache && !cache[o].dirty && !cache[o].fresh_ then cache - {o} else cache
  }

  lemma UncacheKeeps(cache: Cache, base: Coins, o: OutPoint)
    requires CacheOk(cache, base)
    ensures CacheOk(Uncache(cache, o), base) && See(Uncache(cache, o), base) == See(cache, base)
  {
    SameView(See(Uncache(cache, o), base), See(cache, base));
  }

  // ---- writing a child's entries into the parent

  /** A FRESH child entry over an unspent parent entry is a logic error. */
  predicate MergeThrows(cache: Cache, o: OutPoint, e: Entry) {
    e.dirty && o in cache && e.fresh_ && !cache[o].coin.IsSpent()
  }

  function Merge(cache: Cache, o: OutPoint, e: Entry): Cache {
    if !e.dirty then cache
    else if o !in cache then if e.fresh_ && e.coin.IsSpent() then cache else cache[o := Entry(e.coin, true, e.fresh_)]
    else if cache[o].fresh_ && e.coin.IsSpent() then cache - {o}
    else cache[o := Entry(e.coin, true, cache[o].fresh_)]
  }

  /** What a child entry makes of the parent's view. */
  function Overlay(v: Coins, o: OutPoint, e: Entry): Coins { if e.coin.IsSpent() then v - {o} else v[o := e.coin] }

  lemma MergeKeeps(cache: Cache, base: Coins, o: OutPoint, e: Entry)
    requires CacheOk(cache, base) && EntryOk(e, o, See(cache, base))
    ensures !MergeThrows(cache, o, e)
    ensures CacheOk(Merge(cache, o, e), base)
    ensures See(Merge(cache, o, e), base) == Overlay(See(cache, base), o, e)
  {
    MergeShows(cache, base, o, e);
  }

  lemma MergeShows(cache: Cache, base: Coins, o: OutPoint, e: Entry)
    requires CacheOk(cache, base) && EntryOk(e, o, See(cache, base))
    ensures See(Merge(cache, o, e), base) == Overlay(See(cache, base), o, e)
  {
    var now, want := See(Merge(cache, o, e), base), Overlay(See(cache, base), o, e);
    assert Agree(now, want, o);
    forall x | x != o
      ensures Agree(now, want, x)
    {
      assert x in Merge(cache, o, e) <==> x in cache;
    }
    SameView(now, want);
  }

  /** The part of a batch already written shows the child, the rest still the old parent. */
  ghost predicate HalfWritten(now: Coins, child: Cache, pending: Cache, before: Coins) {
    && (forall o :: o in pending ==> o in child && pending[o] == child[o])
    && (forall o :: Agree(now, if o in pending then before else See(child, before), o))
  }

  lemma WriteStarts(child: Cache, before: Coins)
    ensures HalfWritten(before, child, child, before)
  {
    forall o
      ensures Agree(before, if o in child then before else See(child, before), o)
    {
    }
  }

  lemma WriteNext(now: Coins, child: Cache, pending: Cache, before: Coins, o: OutPoint)
    requires HalfWritten(now, child, pending, before) && o in pending && CacheOk(child, before)
    ensures EntryOk(pending[o], o, now)
    ensures HalfWritten(Overlay(now, o, pending[o]), child, pending - {o}, before)
  {
    assert Agree(now, before, o);
    var then_ := Overlay(now, o, pending[o]);
    forall x
      ensures Agree(then_, if x in pending - {o} then before else See(child, before), x)
    {
      assert Agree(now, if x in pending then before else See(child, before), x);
    }
  }

  lemma WriteEnds(now: Coins, child: Cache, before: Coins)
    requires HalfWritten(now, child, map[], before)
    ensures now == See(child, before)
  {
    var none: Cache := map[];
    forall o
      ensures Agree(now, See(child, before), o)
    {
      assert Agree(now, if o in none then before else See(child, before), o);
    }
    SameView(now, See(child, before));
  }
}
