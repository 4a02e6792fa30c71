/**
 Reading an arbitrary dump. With pairwise distinct addresses and possible times, whatever
 else it holds, the rebuilt manager is consistent unless the dump announces negative counts.
 */
module AddrManReading {
  import opened AddrManState
  import opened AddrManOps
  import opened AddrManSteps
  import opened AddrManProof
  import D = AddrManDisk
  import opened IntSets

  type Dump = D.Dump
  type Saved = D.Saved

  /** No two entries of the dump have the same network address. */
  ghost predicate DistinctDump(d: Dump) {
    && (forall i, j :: 0 <= i < j < |d.newEntries| ==> d.newEntries[i].addr.ip != d.newEntries[j].addr.ip)
    && (forall i, j :: 0 <= i < j < |d.triedEntries| ==> d.triedEntries[i].addr.ip != d.triedEntries[j].addr.ip)
    && (forall i, j :: 0 <= i < |d.newEntries| && 0 <= j < |d.triedEntries| ==>
      d.newEntries[i].addr.ip != d.triedEntries[j].addr.ip)
  }

  /** The times of last success are possible ones; every tried entry has succeeded. */
  ghost predicate PossibleTimes(d: Dump) {
    && (forall i :: 0 <= i < |d.newEntries| ==> d.newEntries[i].lastSuccess >= 0)
    && (forall i :: 0 <= i < |d.triedEntries| ==> d.triedEntries[i].lastSuccess > 0)
  }

  /** The ids below n. */
  function Ids(n: nat): (r: set<int>)
    ensures forall x :: x in r ==> 0 <= x < n
  {
    if n == 0 then {} else Ids(n - 1) + {n - 1}
  }

  // ---- new entries

  /** s has the first n new entries, of which none is settled yet. */
  ghost predicate NewsIn(net: Net, d: Dump, n: nat, s: State) {
    && n <= |d.newEntries| && s.idCount == n && s.Weak(net, Ids(n), n - d.nNew, -d.nTried) && s.TimesOk()
    && forall id :: id in s.info ==> 0 <= id < n && !s.info[id].inTried && s.info[id].addr == d.newEntries[id].addr
  }

  /** Referring to an entry in limbo may leave it there. */
  lemma RefInLimbo(net: Net, s: State, k: Slot, id: int, limbo: set<int>, dNew: int, dTried: int)
    requires s.Weak(net, limbo, dNew, dTried) && FitsAt(net, s, k, id) && s.info[id].refCount < NEW_BUCKETS_PER_ADDRESS
    ensures AddRef(s, k, id).Weak(net, limbo, dNew, dTried)
  {
    AddRefKeeps(net, s, k, id, limbo, dNew, dTried);
    EntriesShrinkLimbo(AddRef(s, k, id), limbo - {id}, limbo);
  }

  lemma EnterNew(net: Net, d: Dump, n: nat, s: State, t: State)
    requires DistinctDump(d) && PossibleTimes(d) && n < |d.newEntries| && NewsIn(net, d, n, s)
    requires t == Append(s, D.Load(d.newEntries[n], false, |s.random|))
    ensures NewsIn(net, d, n + 1, t)
  {
    var v := d.newEntries[n];
    assert v.addr.ip !in s.addr;
    AppendKeeps(net, s, D.Load(v, false, |s.random|), Ids(n), n - d.nNew, -d.nTried);
  }

  lemma SettleNew(net: Net, d: Dump, n: nat, s: State, id: int, t: State)
    requires NewsIn(net, d, n, s) && id in s.info && s.info[id].refCount == 0
    requires var k := HomeSlot(net, s, s.info[id]); k !in s.newTab && t == AddRef(s, k, id)
    ensures NewsIn(net, d, n, t)
  {
    var k := HomeSlot(net, s, s.info[id]);
    assert FitsAt(net, s, k, id);
    RefInLimbo(net, s, k, id, Ids(n), n - d.nNew, -d.nTried);
    assert t.TimesOk();
  }

  /** s has the first n new entries; the id counter is set only after all of them. */
  ghost predicate NewsRead(net: Net, d: Dump, n: nat, s: State) { NewsIn(net, d, n, s.(idCount := n)) }

  lemma NewsNext(net: Net, d: Dump, n: nat, s: State)
    requires DistinctDump(d) && PossibleTimes(d) && n < |d.newEntries| && NewsRead(net, d, n, s)
    ensures NewsRead(net, d, n + 1, D.LoadNewOne(net, s, d, n, d.newEntries[n]))
  {
    var u := s.(idCount := n);
    var t := Append(u, D.Load(d.newEntries[n], false, |s.random|));
    var w := D.LoadNewOne(net, s, d, n, d.newEntries[n]).(idCount := n + 1);
    EnterNew(net, d, n, u, t);
    LoadsOne(net, d, n, s, t, w);
    if w != t {
      SettleNew(net, d, n + 1, t, n, w);
    }
  }

  /** Entering a new entry, and without usable buckets referring to it at its home slot. */
  lemma LoadsOne(net: Net, d: Dump, n: nat, s: State, t: State, w: State)
    requires n < |d.newEntries| && t == Append(s.(idCount := n), D.Load(d.newEntries[n], false, |s.random|))
    requires w == D.LoadNewOne(net, s, d, n, d.newEntries[n]).(idCount := n + 1)
    ensures n in t.info && t.info[n].refCount == 0
    ensures w == t || (var k := HomeSlot(net, t, t.info[n]); k !in t.newTab && w == AddRef(t, k, n))
  {
  }

  /** A manager without entries that already has the key and the announced counts of d. */
  ghost predicate Blank(d: Dump, s: State) {
    && s.info == map[] && s.addr == map[] && s.random == [] && s.newTab == map[] && s.triedTab == map[]
    && s.idCount == 0
    && s.nNew == d.nNew && s.nTried == d.nTried
  }

  lemma NewsStart(net: Net, d: Dump, s: State)
    requires Blank(d, s)
    ensures NewsRead(net, d, 0, s)
  {
    assert s.NewIds() == {} && s.TriedIds() == {};
  }

  lemma NewsDone(net: Net, d: Dump, s: State)
    requires DistinctDump(d) && PossibleTimes(d) && Blank(d, s)
    ensures NewsRead(net, d, |d.newEntries|, D.LoadNew(net, s, d, |d.newEntries|))
  {
    NewsStart(net, d, s);
    forall n: nat, u | n < |d.newEntries| && NewsRead(net, d, n, u)
      ensures NewsRead(net, d, n + 1, D.LoadNewOne(net, u, d, n, d.newEntries[n]))
    {
      NewsNext(net, d, n, u);
    }
    D.OverNew(net, s, d, |d.newEntries|, (n: nat, u) => NewsRead(net, d, n, u));
  }

  // ---- tried entries

  /** Tried entries have the ids after those of the new ones; the addresses still to come are not known yet. */
  ghost predicate Sorted(d: Dump, m: nat, s: State) {
    && (forall id :: id in s.info && s.info[id].inTried ==> d.nNew <= id)
    && (forall j :: m <= j < |d.triedEntries| ==> d.triedEntries[j].addr.ip !in s.addr)
  }

  /** s has all new entries, and of the first m tried ones those whose slot was free. */
  ghost predicate TriedIn(net: Net, d: Dump, m: nat, s: State) {
    && d.nNew == |d.newEntries| <= s.idCount && m <= |d.triedEntries|
    && s.Weak(net, Ids(d.nNew), 0, m - d.nTried) && s.TimesOk() && Sorted(d, m, s)
  }

  lemma TriedStart(net: Net, d: Dump, s: State)
    requires d.nNew == |d.newEntries| && DistinctDump(d) && NewsIn(net, d, d.nNew, s)
    ensures TriedIn(net, d, 0, s)
  {
    forall j | 0 <= j < |d.triedEntries|
      ensures d.triedEntries[j].addr.ip !in s.addr
    {
    }
  }

  /** A new tried entry, at its free slot. */
  lemma AppendTriedKeeps(net: Net, s: State, i: Info, k: Slot, limbo: set<int>, dNew: int, dTried: int, t: State)
    requires s.Weak(net, limbo, dNew, dTried) && Unplaced(s, i) && i.inTried
    requires k == s.TriedSlot(net, i.addr) && k !in s.triedTab
    requires t == Append(s, i).(triedTab := s.triedTab[k := s.idCount])
    ensures t.Weak(net, limbo, dNew, dTried + 1)
  {
    var r := Append(s, i);
    AppendIndexed(s, i);
    AppendReferences(net, s, i);
    AppendCounts(s, i, dNew, dTried);
    AddrTransfers(r, t);
    RandomTransfers(r, t);
    SameReferences(net, r, t);
    assert t.NewIds() == r.NewIds() && t.TriedIds() == r.TriedIds();
    AppendedTried(net, s, i, k, t);
  }

  lemma SameReferences(net: Net, r: State, t: State)
    requires t == r.(triedTab := t.triedTab) && r.NewSlotsOk(net) && r.RefCountsOk(net)
    ensures t.NewSlotsOk(net) && t.RefCountsOk(net)
  {
    forall x | x in t.info
      ensures t.info[x].refCount == |t.Buckets(net, t.info[x].addr, x)|
    {
      assert t.Buckets(net, t.info[x].addr, x) == r.Buckets(net, r.info[x].addr, x);
    }
  }

  lemma AppendedTried(net: Net, s: State, i: Info, k: Slot, t: State)
    requires s.TriedTableOk(net) && s.idCount !in s.info && i.inTried
    requires k == s.TriedSlot(net, i.addr) && k !in s.triedTab
    requires t == Append(s, i).(triedTab := s.triedTab[k := s.idCount])
    ensures t.TriedTableOk(net)
  {
  }

  lemma TriedNext(net: Net, d: Dump, m: nat, s: State)
    requires DistinctDump(d) && PossibleTimes(d) && m < |d.triedEntries| && TriedIn(net, d, m, s)
    ensures TriedIn(net, d, m + 1, D.LoadTriedOne(net, s, d.triedEntries[m]))
  {
    var v := d.triedEntries[m];
    var t := D.LoadTriedOne(net, s, v);
    TriedWeak(net, v, s, t, Ids(d.nNew), m - d.nTried);
    TriedEntries(net, v, s, t);
  }

  lemma TriedEntries(net: Net, v: Saved, s: State, t: State)
    requires s.TimesOk() && v.lastSuccess > 0 && t == D.LoadTriedOne(net, s, v)
    ensures t.TimesOk() && s.idCount <= t.idCount
    ensures forall id :: id in t.info ==> (id in s.info && t.info[id] == s.info[id]) || id == s.idCount
    ensures forall a :: a in t.addr ==> a in s.addr || a == v.addr.ip
  {
  }

  lemma TriedWeak(net: Net, v: Saved, s: State, t: State, limbo: set<int>, dTried: int)
    requires s.Weak(net, limbo, 0, dTried) && v.addr.ip !in s.addr && t == D.LoadTriedOne(net, s, v)
    ensures t.Weak(net, limbo, 0, dTried + 1)
  {
    var k := s.TriedSlot(net, v.addr);
    if k !in s.triedTab {
      AppendTriedKeeps(net, s, D.Load(v, true, |s.random|), k, limbo, 0, dTried, t);
    } else {
      LostTried(net, s, limbo, dTried, t);
    }
  }

  lemma LostTried(net: Net, s: State, limbo: set<int>, dTried: int, t: State)
    requires s.Weak(net, limbo, 0, dTried) && t == s.(nTried := s.nTried - 1)
    ensures t.Weak(net, limbo, 0, dTried + 1)
  {
    AddrTransfers(s, t);
    RandomTransfers(s, t);
    TriedTransfers(net, s, t);
    NewTransfers(net, s, t);
    IdsTransfer(s, t);
  }

  lemma TriedDone(net: Net, d: Dump, s: State)
    requires DistinctDump(d) && PossibleTimes(d) && TriedIn(net, d, 0, s)
    ensures TriedIn(net, d, |d.triedEntries|, D.LoadTried(net, s, d, |d.triedEntries|))
  {
    forall m: nat, u | m < |d.triedEntries| && TriedIn(net, d, m, u)
      ensures TriedIn(net, d, m + 1, D.LoadTriedOne(net, u, d.triedEntries[m]))
    {
      TriedNext(net, d, m, u);
    }
    D.OverTried(net, s, d, |d.triedEntries|, (m: nat, u) => TriedIn(net, d, m, u));
  }

  // ---- claiming slots

  /** All entries are in; the new ones may still be without a slot. */
  ghost predicate Claiming(net: Net, d: Dump, s: State) {
    && d.nNew == |d.newEntries| && s.Weak(net, Ids(d.nNew), 0, 0) && s.TimesOk()
    && forall id :: id in s.info && id < d.nNew ==> !s.info[id].inTried
  }

  lemma ClaimNext(net: Net, d: Dump, s: State, b: nat, index: int)
    requires Claiming(net, d, s) && (D.TrustsBuckets(d) ==> b < NEW_BUCKET_COUNT)
    ensures Claiming(net, d, D.ClaimOne(net, s, d, b, index))
  {
    if D.ClaimOne(net, s, d, b, index) != s {
      RefInLimbo(net, s, s.NewSlot(net, s.info[index].addr, b), index, Ids(d.nNew), 0, 0);
    }
  }

  lemma {:induction false} ClaimRowKeeps(net: Net, d: Dump, s: State, b: nat, row: seq<int>)
    requires Claiming(net, d, s) && (D.TrustsBuckets(d) ==> b < NEW_BUCKET_COUNT)
    ensures Claiming(net, d, D.ClaimRow(net, s, d, b, row))
    decreases |row|
  {
    if row != [] {
      ClaimRowKeeps(net, d, s, b, row[..|row| - 1]);
      ClaimNext(net, d, D.ClaimRow(net, s, d, b, row[..|row| - 1]), b, row[|row| - 1]);
    }
  }

  lemma ClaimAllKeeps(net: Net, d: Dump, s: State)
    requires Claiming(net, d, s) && D.WellFormed(d)
    ensures Claiming(net, d, D.ClaimAll(net, s, d, |d.buckets|))
  {
    forall b: nat, u | b < |d.buckets| && Claiming(net, d, u)
      ensures Claiming(net, d, D.ClaimRow(net, u, d, b, d.buckets[b]))
    {
      ClaimRowKeeps(net, d, u, b, d.buckets[b]);
    }
    D.OverBuckets(net, s, d, |d.buckets|, (b: nat, u) => Claiming(net, d, u));
  }

  // ---- pruning

  /** The ids in pending are those without a reference. */
  ghost predicate Pruning(net: Net, s: State, pending: set<int>) {
    && s.Weak(net, pending, 0, 0) && s.TimesOk()
    && forall id :: id in pending ==> id in s.info && !s.info[id].inTried && s.info[id].refCount == 0
  }

  lemma PruneStart(net: Net, d: Dump, s: State)
    requires Claiming(net, d, s)
    ensures Pruning(net, s, D.Homeless(s))
  {
    forall id | id in s.info
      ensures s.info[id].refCount >= 0
    {
      assert s.info[id].refCount == |s.Buckets(net, s.info[id].addr, id)|;
    }
    EntriesShrinkLimbo(s, Ids(d.nNew), D.Homeless(s));
  }

  lemma PruneNext(net: Net, s: State, pending: set<int>, m: int)
    requires Pruning(net, s, pending) && m in pending
    ensures Pruning(net, DeleteUnreferenced(s, m), pending - {m})
  {
    assert pending - {m} + {m} == pending;
    DeleteUnreferencedKeeps(net, s, m, pending - {m}, 0, 0);
    DeleteShrinks(s, m);
  }

  lemma {:induction false} PruneDone(net: Net, s: State, pending: set<int>)
    requires Pruning(net, s, pending)
    ensures D.Prune(s, pending).Consistent(net)
    decreases pending
  {
    if pending != {} {
      var m := Min(pending);
      PruneNext(net, s, pending, m);
      PruneDone(net, DeleteUnreferenced(s, m), pending - {m});
    }
  }

  // ---- counts only fall

  /** Neither count of t is above that of s, and key and pending collisions are the same. */
  predicate CountsFrom(s: State, t: State) {
    t.nNew <= s.nNew && t.nTried <= s.nTried && t.collisions == s.collisions && t.key == s.key
  }

  lemma NewsCounts(net: Net, s: State, d: Dump)
    ensures CountsFrom(s, D.LoadNew(net, s, d, |d.newEntries|))
  {
    D.OverNew(net, s, d, |d.newEntries|, (n: nat, u: State) => CountsFrom(s, u));
  }

  lemma TriedCounts(net: Net, s: State, d: Dump)
    ensures CountsFrom(s, D.LoadTried(net, s, d, |d.triedEntries|))
  {
    D.OverTried(net, s, d, |d.triedEntries|, (n: nat, u: State) => CountsFrom(s, u));
  }

  lemma {:induction false} ClaimRowCounts(net: Net, s: State, d: Dump, b: nat, row: seq<int>)
    ensures CountsFrom(s, D.ClaimRow(net, s, d, b, row))
    decreases |row|
  {
    if row != [] {
      ClaimRowCounts(net, s, d, b, row[..|row| - 1]);
    }
  }

  lemma ClaimAllCounts(net: Net, s: State, d: Dump)
    ensures CountsFrom(s, D.ClaimAll(net, s, d, |d.buckets|))
  {
    forall b: nat, u | b < |d.buckets|
      ensures CountsFrom(u, D.ClaimRow(net, u, d, b, d.buckets[b]))
    {
      ClaimRowCounts(net, u, d, b, d.buckets[b]);
    }
    D.OverBuckets(net, s, d, |d.buckets|, (b: nat, u: State) => CountsFrom(s, u));
  }

  lemma {:induction false} PruneCounts(s: State, pending: set<int>)
    ensures CountsFrom(s, D.Prune(s, pending))
    decreases pending
  {
    if pending != {} {
      PruneCounts(DeleteUnreferenced(s, Min(pending)), pending - {Min(pending)});
    }
  }

  /** Neither count of the rebuilt manager exceeds the announced one, and the pending collisions are untouched. */
  lemma RebuildCounts(net: Net, s: State, d: Dump)
    requires D.WellFormed(d)
    ensures CountsFrom(D.Started(s, d), D.Rebuild(net, s, d))
  {
    var t0 := D.Started(s, d);
    NewsCounts(net, t0, d);
    var t1 := D.LoadNew(net, t0, d, |d.newEntries|).(idCount := d.nNew);
    TriedCounts(net, t1, d);
    var t2 := D.LoadTried(net, t1, d, |d.triedEntries|);
    ClaimAllCounts(net, t2, d);
    var t3 := D.ClaimAll(net, t2, d, |d.buckets|);
    PruneCounts(t3, D.Homeless(t3));
  }

  // ---- the theorem

  lemma RebuiltFromDump(net: Net, s: State, d: Dump)
    requires D.WellFormed(d) && DistinctDump(d) && PossibleTimes(d) && d.nNew >= 0 && d.nTried >= 0
    requires s.info == map[] && s.addr == map[] && s.random == [] && s.newTab == map[] && s.triedTab == map[]
    requires s.idCount == 0
    ensures D.Rebuild(net, s, d).Consistent(net)
  {
    var t0 := D.Started(s, d);
    NewsDone(net, d, t0);
    var t1 := D.LoadNew(net, t0, d, |d.newEntries|).(idCount := d.nNew);
    TriedStart(net, d, t1);
    TriedDone(net, d, t1);
    var t2 := D.LoadTried(net, t1, d, |d.triedEntries|);
    assert Claiming(net, d, t2);
    ClaimAllKeeps(net, d, t2);
    var t3 := D.ClaimAll(net, t2, d, |d.buckets|);
    PruneStart(net, d, t3);
    PruneDone(net, t3, D.Homeless(t3));
  }

  /**
   Reading a dump with pairwise distinct addresses and possible times, over any manager:
   the result is consistent exactly when neither announced count is negative. Stored
   buckets that are wrong, or cannot be used, cost entries but never consistency.
   */
  lemma DumpIsConsistent(net: Net, into: State, d: Dump, randomKey: Key)
    requires D.WellFormed(d) && DistinctDump(d) && PossibleTimes(d) && d.keySize == D.KEY_SIZE
    ensures D.Unserialize(net, into, d, randomKey).Consistent(net) <==> d.nNew >= 0 && d.nTried >= 0
    ensures D.Unserialize(net, into, d, randomKey).PassesCheck(net) <==>
      d.nNew >= 0 && d.nTried >= 0 && d.key != NULL_KEY
    ensures D.Unserialize(net, into, d, randomKey).collisions == into.collisions
  {
    var s := D.Cleared(into, randomKey);
    RebuildCounts(net, s, d);
    if d.nNew >= 0 && d.nTried >= 0 {
      RebuiltFromDump(net, s, d);
    }
  }

  /** A file that announces minus one new entry is read, and leaves an inconsistent manager. */
  lemma NegativeCount(net: Net, into: State, key: Key, randomKey: Key)
    ensures var d := D.Dump(1, D.KEY_SIZE, key, -1, 0, D.Flipped(0), [], [], []);
      D.WellFormed(d) && !D.Unserialize(net, into, d, randomKey).Consistent(net)
  {
    var d := D.Dump(1, D.KEY_SIZE, key, -1, 0, D.Flipped(0), [], [], []);
    D.FlippedTwice(0);
    DumpIsConsistent(net, into, d, randomKey);
  }
}
