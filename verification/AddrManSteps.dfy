/**
 Each building block of the address manager keeps the weak invariant; the blocks differ
 in which entries they leave in limbo and in how far the counters lag.
 */
module AddrManSteps {
  import opened AddrManState

  // ---- parts of the invariant depend on parts of the state

  ghost predicate SameAddr(s: State, t: State) {
    && s.idCount == t.idCount && s.info.Keys == t.info.Keys && s.addr == t.addr
    && (forall id :: id in s.info ==> s.info[id].addr == t.info[id].addr)
  }

  ghost predicate SameRandom(s: State, t: State) {
    && s.info.Keys == t.info.Keys && s.random == t.random
    && (forall id :: id in s.info ==> s.info[id].randomPos == t.info[id].randomPos)
  }

  ghost predicate SameTried(s: State, t: State) {
    && s.key == t.key && s.info.Keys == t.info.Keys && s.triedTab == t.triedTab
    && (forall id :: id in s.info ==> s.info[id].addr == t.info[id].addr && s.info[id].inTried == t.info[id].inTried)
  }

  ghost predicate SameNew(s: State, t: State) {
    && s.newTab == t.newTab
    && (forall id :: id in s.info && id in t.info ==> s.info[id].refCount == t.info[id].refCount)
  }

  lemma AddrTransfers(s: State, t: State)
    requires SameAddr(s, t) && s.AddrIndexed()
    ensures t.AddrIndexed()
  {
  }

  lemma RandomTransfers(s: State, t: State)
    requires SameRandom(s, t) && s.RandomIndexed()
    ensures t.RandomIndexed()
  {
  }

  lemma TriedTransfers(net: Net, s: State, t: State)
    requires SameTried(s, t) && s.TriedTableOk(net)
    ensures t.TriedTableOk(net)
  {
  }

  lemma IdsTransfer(s: State, t: State)
    requires SameTried(s, t)
    ensures t.NewIds() == s.NewIds() && t.TriedIds() == s.TriedIds()
  {
    forall id
      ensures id in t.NewIds() <==> id in s.NewIds()
      ensures id in t.TriedIds() <==> id in s.TriedIds()
    {
      assert id in t.info <==> id in s.info;
    }
  }

  lemma NewTransfers(net: Net, s: State, t: State)
    requires SameTried(s, t) && SameNew(s, t) && s.NewSlotsOk(net) && s.RefCountsOk(net)
    ensures t.NewSlotsOk(net) && t.RefCountsOk(net)
  {
    forall id | id in t.info
      ensures t.info[id].refCount == |t.Buckets(net, t.info[id].addr, id)|
    {
      assert id in s.info;
      assert s.Buckets(net, s.info[id].addr, id) == t.Buckets(net, t.info[id].addr, id);
    }
  }

  // ---- SwapRandom

  lemma SwapRandomIndexed(s: State, i: nat, j: nat)
    requires s.RandomIndexed() && i < |s.random| && j < |s.random|
    ensures SwapRandom(s, i, j).RandomIndexed()
  {
  }

  lemma SwapInfo(s: State, i: nat, j: nat)
    requires i < |s.random| && j < |s.random| && s.random[i] in s.info && s.random[j] in s.info
    ensures OnlyRandomPos(s, SwapRandom(s, i, j))
    ensures SwapRandom(s, i, j).info[s.random[i]].randomPos == if i == j then s.info[s.random[i]].randomPos
      else if s.random[i] == s.random[j] then i else j
  {
    var t := SwapRandom(s, i, j);
    assert t.info.Keys == s.info.Keys;
    forall id | id in s.info
      ensures t.info[id] == s.info[id].(randomPos := t.info[id].randomPos)
    {
      if id != s.random[i] && id != s.random[j] {
        assert t.info[id] == s.info[id];
      }
    }
  }

  lemma SwapKeeps(net: Net, s: State, i: nat, j: nat, limbo: set<int>, dNew: int, dTried: int)
    requires s.Weak(net, limbo, dNew, dTried) && i < |s.random| && j < |s.random|
    ensures SwapRandom(s, i, j).Weak(net, limbo, dNew, dTried)
  {
    SwapRandomIndexed(s, i, j);
    SwapInfo(s, i, j);
    Reassemble(net, s, SwapRandom(s, i, j), limbo, dNew, dTried);
  }

  /** Everything but the order of random and the entries' places in it is the same. */
  ghost predicate OnlyRandomPos(s: State, t: State) {
    && t == s.(info := t.info, random := t.random)
    && t.info.Keys == s.info.Keys
    && (forall id :: id in s.info ==> t.info[id] == s.info[id].(randomPos := t.info[id].randomPos))
  }

  lemma Reassemble(net: Net, s: State, t: State, limbo: set<int>, dNew: int, dTried: int)
    requires s.Weak(net, limbo, dNew, dTried) && t.RandomIndexed() && OnlyRandomPos(s, t)
    ensures t.Weak(net, limbo, dNew, dTried)
  {
    AddrTransfers(s, t);
    TriedTransfers(net, s, t);
    IdsTransfer(s, t);
    NewTransfers(net, s, t);
  }

  // ---- Delete

  /** An entry without references sits in no slot of the new table. */
  lemma NotHeld(net: Net, s: State, id: int)
    requires s.NewSlotsOk(net) && s.RefCountsOk(net) && id in s.info && s.info[id].refCount == 0
    ensures forall k :: k in s.newTab ==> s.newTab[k] != id
  {
    var held := s.Buckets(net, s.info[id].addr, id);
    assert held == {};
    forall k | k in s.newTab
      ensures s.newTab[k] != id
    {
      assert s.newTab[k] == id ==> k.bucket in held;
    }
  }

  lemma DropLastIndexed(s: State, id: int)
    requires s.AddrIndexed() && s.RandomIndexed() && id in s.info && s.info[id].randomPos == |s.random| - 1
    ensures DropLast(s, id).AddrIndexed() && DropLast(s, id).RandomIndexed()
  {
  }

  lemma DropLastCounts(s: State, id: int, dNew: int, dTried: int)
    requires |s.random| > 0 && s.CountersOk(dNew, dTried) && id in s.info && !s.info[id].inTried
    ensures DropLast(s, id).CountersOk(dNew, dTried)
  {
    var t := DropLast(s, id);
    assert t.NewIds() == s.NewIds() - {id};
    assert t.TriedIds() == s.TriedIds();
  }

  lemma DropLastTables(net: Net, s: State, id: int)
    requires |s.random| > 0 && s.TriedTableOk(net) && s.NewSlotsOk(net) && s.RefCountsOk(net)
    requires id in s.info && !s.info[id].inTried && s.info[id].refCount == 0
    ensures DropLast(s, id).TriedTableOk(net) && DropLast(s, id).NewSlotsOk(net) && DropLast(s, id).RefCountsOk(net)
  {
    var t := DropLast(s, id);
    NotHeld(net, s, id);
    forall x | x in t.info
      ensures t.info[x].refCount == |t.Buckets(net, t.info[x].addr, x)|
    {
      assert t.Buckets(net, t.info[x].addr, x) == s.Buckets(net, s.info[x].addr, x);
    }
  }

  lemma CanDeleteUnreferenced(s: State, id: int)
    requires s.RandomIndexed() && id in s.info && !s.info[id].inTried && s.info[id].refCount == 0
    ensures CanDelete(s, id) && s.random[s.info[id].randomPos] == id
    ensures s.random[|s.random| - 1] == id ==> s.info[id].randomPos == |s.random| - 1
  {
  }

  lemma DeleteIsDropLast(s: State, id: int) returns (r: State)
    requires CanDelete(s, id) && s.random[s.info[id].randomPos] == id
    requires s.random[|s.random| - 1] == id ==> s.info[id].randomPos == |s.random| - 1
    ensures r == SwapRandom(s, s.info[id].randomPos, |s.random| - 1)
    ensures id in r.info && r.info[id] == s.info[id].(randomPos := |r.random| - 1) && |r.random| > 0
    ensures Delete(s, id) == DropLast(r, id)
  {
    r := SwapRandom(s, s.info[id].randomPos, |s.random| - 1);
  }

  /** Deleting id swaps it to the end of random and drops it there. */
  lemma DeleteUnfolds(s: State, id: int) returns (r: State)
    requires s.RandomIndexed() && id in s.info && !s.info[id].inTried && s.info[id].refCount == 0
    ensures CanDelete(s, id)
    ensures id in r.info && r.info[id] == s.info[id].(randomPos := |r.random| - 1) && |r.random| > 0
    ensures Delete(s, id) == DropLast(r, id)
    ensures r.RandomIndexed() && OnlyRandomPos(s, r)
  {
    CanDeleteUnreferenced(s, id);
    r := DeleteIsDropLast(s, id);
    SwappedIsIndexed(s, s.info[id].randomPos, |s.random| - 1, r);
  }

  lemma SwappedIsIndexed(s: State, i: nat, j: nat, r: State)
    requires s.RandomIndexed() && i < |s.random| && j < |s.random| && s.random[i] in s.info && s.random[j] in s.info
    requires r == SwapRandom(s, i, j)
    ensures r.RandomIndexed() && OnlyRandomPos(s, r)
  {
    SwapRandomIndexed(s, i, j);
    SwapInfo(s, i, j);
  }

  lemma DeleteKeeps(net: Net, s: State, id: int, limbo: set<int>, dNew: int, dTried: int)
    requires s.Weak(net, limbo, dNew, dTried) && id in s.info && !s.info[id].inTried && s.info[id].refCount == 0
    ensures CanDelete(s, id)
    ensures Delete(s, id).Weak(net, limbo - {id}, dNew, dTried)
  {
    var r := DeleteUnfolds(s, id);
    Reassemble(net, s, r, limbo, dNew, dTried);
    DropLastKeeps(net, r, id, limbo, dNew, dTried);
  }

  lemma DropLastKeeps(net: Net, s: State, id: int, limbo: set<int>, dNew: int, dTried: int)
    requires s.Weak(net, limbo, dNew, dTried) && id in s.info && !s.info[id].inTried && s.info[id].refCount == 0
    requires s.info[id].randomPos == |s.random| - 1
    ensures DropLast(s, id).Weak(net, limbo - {id}, dNew, dTried)
  {
    DropLastIndexed(s, id);
    DropLastCounts(s, id, dNew, dTried);
    DropLastTables(net, s, id);
  }

  // ---- references

  /** Everything but the new table, the counter of new entries and the reference count of id is the same. */
  ghost predicate OnlyRef(s: State, t: State, id: int) {
    && id in s.info && id in t.info
    && t == s.(info := s.info[id := s.info[id].(refCount := t.info[id].refCount)], newTab := t.newTab, nNew := t.nNew)
  }

  lemma RefTransfers(net: Net, s: State, t: State, id: int, dNew: int, dTried: int)
    requires OnlyRef(s, t, id) && s.AddrIndexed() && s.RandomIndexed() && s.TriedTableOk(net)
    requires s.CountersOk(dNew, dTried)
    ensures t.AddrIndexed() && t.RandomIndexed() && t.TriedTableOk(net) && t.CountersOk(dNew + s.nNew - t.nNew, dTried)
  {
    AddrTransfers(s, t);
    RandomTransfers(s, t);
    TriedTransfers(net, s, t);
    IdsTransfer(s, t);
  }

  lemma RefEntries(s: State, t: State, id: int, limbo: set<int>)
    requires OnlyRef(s, t, id) && s.EntriesOk(limbo) && t.info[id].refCount <= NEW_BUCKETS_PER_ADDRESS
    ensures t.EntriesOk(limbo + {id})
    ensures t.info[id].refCount >= 1 ==> t.EntriesOk(limbo - {id})
  {
  }

  lemma UnrefTables(net: Net, s: State, k: Slot)
    requires s.NewSlotsOk(net) && s.RefCountsOk(net) && k in s.newTab
    ensures s.newTab[k] in s.info && s.info[s.newTab[k]].refCount > 0
    ensures Unref(s, k).NewSlotsOk(net) && Unref(s, k).RefCountsOk(net)
  {
    var id := s.newTab[k];
    var t := Unref(s, k);
    assert k.bucket in s.Buckets(net, s.info[id].addr, id);
    forall x | x in t.info
      ensures t.info[x].refCount == |t.Buckets(net, t.info[x].addr, x)|
    {
      if x == id {
        assert t.Buckets(net, t.info[x].addr, x) == s.Buckets(net, s.info[x].addr, x) - {k.bucket};
      } else {
        assert t.Buckets(net, t.info[x].addr, x) == s.Buckets(net, s.info[x].addr, x);
      }
    }
  }

  lemma UnrefKeeps(net: Net, s: State, k: Slot, limbo: set<int>, dNew: int, dTried: int)
    requires s.Weak(net, limbo, dNew, dTried) && k in s.newTab
    ensures s.newTab[k] in s.info
    ensures s.info[s.newTab[k]].refCount > 0
    ensures Unref(s, k).Weak(net, limbo + {s.newTab[k]}, dNew, dTried)
  {
    UnrefTables(net, s, k);
    RefTransfers(net, s, Unref(s, k), s.newTab[k], dNew, dTried);
    RefEntries(s, Unref(s, k), s.newTab[k], limbo);
  }

  ghost predicate FitsAt(net: Net, s: State, k: Slot, id: int) {
    && k !in s.newTab && id in s.info && !s.info[id].inTried
    && 0 <= k.bucket < NEW_BUCKET_COUNT && k == s.NewSlot(net, s.info[id].addr, k.bucket)
  }

  lemma AddRefSlots(net: Net, s: State, k: Slot, id: int)
    requires s.NewSlotsOk(net) && FitsAt(net, s, k, id)
    ensures AddRef(s, k, id).NewSlotsOk(net)
  {
  }

  lemma AddRefCounts(net: Net, s: State, k: Slot, id: int)
    requires s.RefCountsOk(net) && FitsAt(net, s, k, id)
    ensures AddRef(s, k, id).RefCountsOk(net)
  {
    var t := AddRef(s, k, id);
    forall x | x in t.info
      ensures t.info[x].refCount == |t.Buckets(net, t.info[x].addr, x)|
    {
      if x == id {
        assert t.Buckets(net, t.info[x].addr, x) == s.Buckets(net, s.info[x].addr, x) + {k.bucket};
      } else {
        assert t.Buckets(net, t.info[x].addr, x) == s.Buckets(net, s.info[x].addr, x);
      }
    }
  }

  lemma AddRefKeeps(net: Net, s: State, k: Slot, id: int, limbo: set<int>, dNew: int, dTried: int)
    requires s.Weak(net, limbo, dNew, dTried) && FitsAt(net, s, k, id)
    requires s.info[id].refCount < NEW_BUCKETS_PER_ADDRESS
    ensures AddRef(s, k, id).Weak(net, limbo - {id}, dNew, dTried)
  {
    assert s.info[id].refCount == |s.Buckets(net, s.info[id].addr, id)|;
    AddRefSlots(net, s, k, id);
    AddRefCounts(net, s, k, id);
    RefTransfers(net, s, AddRef(s, k, id), id, dNew, dTried);
    RefEntries(s, AddRef(s, k, id), id, limbo);
  }

  // ---- a new entry

  /** An entry no table refers to yet, for the end of random. */
  predicate Unplaced(s: State, i: Info) {
    i.refCount == 0 && i.randomPos == |s.random| && i.addr.ip !in s.addr
  }

  lemma AppendIndexed(s: State, i: Info)
    requires s.AddrIndexed() && s.RandomIndexed() && Unplaced(s, i)
    ensures Append(s, i).AddrIndexed() && Append(s, i).RandomIndexed()
  {
  }

  lemma AppendReferences(net: Net, s: State, i: Info)
    requires s.NewSlotsOk(net) && s.RefCountsOk(net) && s.idCount !in s.info && i.refCount == 0
    ensures Append(s, i).NewSlotsOk(net) && Append(s, i).RefCountsOk(net)
  {
    var t := Append(s, i);
    forall x | x in t.info
      ensures t.info[x].refCount == |t.Buckets(net, t.info[x].addr, x)|
    {
      if x == s.idCount {
        assert t.Buckets(net, t.info[x].addr, x) == {};
      } else {
        assert t.Buckets(net, t.info[x].addr, x) == s.Buckets(net, s.info[x].addr, x);
      }
    }
  }

  lemma AppendCounts(s: State, i: Info, dNew: int, dTried: int)
    requires s.CountersOk(dNew, dTried) && s.idCount !in s.info
    ensures Append(s, i).CountersOk(if i.inTried then dNew else dNew + 1, if i.inTried then dTried + 1 else dTried)
  {
    var t, x := Append(s, i), s.idCount;
    assert t.NewIds() == if i.inTried then s.NewIds() else s.NewIds() + {x};
    assert t.TriedIds() == if i.inTried then s.TriedIds() + {x} else s.TriedIds();
  }

  /** A new entry that is in no table is in limbo. */
  lemma AppendKeeps(net: Net, s: State, i: Info, limbo: set<int>, dNew: int, dTried: int)
    requires s.Weak(net, limbo, dNew, dTried) && Unplaced(s, i) && !i.inTried
    ensures Append(s, i).Weak(net, limbo + {s.idCount}, dNew + 1, dTried)
  {
    AppendIndexed(s, i);
    AppendReferences(net, s, i);
    AppendCounts(s, i, dNew, dTried);
  }

  lemma CreateKeeps(net: Net, s: State, a: Address, source: NetAddr, limbo: set<int>, dNew: int, dTried: int)
    requires s.Weak(net, limbo, dNew, dTried) && a.service.ip !in s.addr
    ensures Create(s, a, source).Weak(net, limbo + {s.idCount}, dNew + 1, dTried)
  {
    AppendKeeps(net, s, FreshInfo(a, source, |s.random|), limbo, dNew, dTried);
  }
}
