/**
 Clearing a slot of the new table and moving an entry to the tried table, stage by stage:
 each keeps the weak invariant, and what it leaves alone.
 */
module AddrManProof {
  import opened AddrManState
  import opened AddrManOps
  import opened AddrManSteps

  // ---- ClearNew

  /** t is s without some entries, whose ids are in gone; the others only moved in random. */
  ghost predicate Shrunk(s: State, t: State, gone: set<int>) {
    && t.info.Keys == s.info.Keys - gone
    && (forall x :: x in t.info ==> t.info[x] == s.info[x].(randomPos := t.info[x].randomPos))
  }

  lemma DropLastShrinks(s: State, id: int)
    requires id in s.info && |s.random| > 0
    ensures Shrunk(s, DropLast(s, id), {id})
  {
  }

  lemma ShrunkCompose(s: State, r: State, t: State, id: int)
    requires OnlyRandomPos(s, r) && Shrunk(r, t, {id})
    ensures Shrunk(s, t, {id})
  {
    forall x | x in t.info
      ensures t.info[x] == s.info[x].(randomPos := t.info[x].randomPos)
    {
      assert x in r.info;
    }
  }

  lemma DeleteShrinks(s: State, id: int)
    requires s.RandomIndexed() && id in s.info && !s.info[id].inTried && s.info[id].refCount == 0
    ensures CanDelete(s, id) && Shrunk(s, Delete(s, id), {id})
    ensures var t := Delete(s, id); t == s.(info := t.info, addr := t.addr, random := t.random, nNew := s.nNew - 1)
  {
    var r := DeleteUnfolds(s, id);
    DropLastShrinks(r, id);
    ShrunkCompose(s, r, DropLast(r, id), id);
  }

  ghost predicate ClearFrame(s: State, t: State, k: Slot) {
    && t == s.(info := t.info, addr := t.addr, random := t.random, nNew := t.nNew, newTab := s.newTab - {k})
    && (forall x :: x in t.info ==>
          && x in s.info && t.info[x].inTried == s.info[x].inTried
          && t.info[x].addr == s.info[x].addr && t.info[x].stats == s.info[x].stats)
    && (forall x :: x in s.info && (k in s.newTab ==> x != s.newTab[k]) ==>
          x in t.info && t.info[x] == s.info[x].(randomPos := t.info[x].randomPos))
  }

  lemma EntriesShrinkLimbo(s: State, limbo: set<int>, smaller: set<int>)
    requires s.EntriesOk(limbo)
    requires forall id :: id in s.info && id in limbo && id !in smaller ==> s.info[id].refCount >= 1
    ensures s.EntriesOk(smaller)
  {
  }

  lemma DeleteUnreferencedKeeps(net: Net, s: State, id: int, limbo: set<int>, dNew: int, dTried: int)
    requires s.Weak(net, limbo + {id}, dNew, dTried) && id in s.info && !s.info[id].inTried
    ensures DeleteUnreferenced(s, id).Weak(net, limbo, dNew, dTried)
  {
    assert s.info[id].refCount == |s.Buckets(net, s.info[id].addr, id)|;
    if s.info[id].refCount == 0 {
      DeleteKeeps(net, s, id, limbo + {id}, dNew, dTried);
      EntriesShrinkLimbo(Delete(s, id), limbo + {id} - {id}, limbo);
    } else {
      EntriesShrinkLimbo(s, limbo + {id}, limbo);
    }
  }

  lemma DeleteUnreferencedFrame(s: State, id: int)
    requires s.RandomIndexed() && id in s.info && !s.info[id].inTried
    ensures var t := DeleteUnreferenced(s, id);
      && t == s.(info := t.info, addr := t.addr, random := t.random, nNew := t.nNew)
      && Shrunk(s, t, if s.info[id].refCount == 0 then {id} else {})
  {
    if s.info[id].refCount == 0 {
      DeleteShrinks(s, id);
    }
  }

  lemma ClearNewKeeps(net: Net, s: State, k: Slot, limbo: set<int>, dNew: int, dTried: int)
    requires s.Weak(net, limbo, dNew, dTried)
    ensures ClearNew(s, k).Weak(net, limbo, dNew, dTried)
    ensures ClearFrame(s, ClearNew(s, k), k)
  {
    if k in s.newTab {
      UnrefKeeps(net, s, k, limbo, dNew, dTried);
      DeleteUnreferencedKeeps(net, Unref(s, k), s.newTab[k], limbo, dNew, dTried);
      ClearNewFrame(net, s, k);
    } else {
      assert s.newTab - {k} == s.newTab;
    }
  }

  lemma ClearNewFrame(net: Net, s: State, k: Slot)
    requires s.RandomIndexed() && s.NewSlotsOk(net) && k in s.newTab
    ensures ClearFrame(s, ClearNew(s, k), k)
  {
    var id := s.newTab[k];
    RandomTransfers(s, Unref(s, k));
    DeleteUnreferencedFrame(Unref(s, k), id);
    UnrefThenShrink(s, k, ClearNew(s, k));
  }

  lemma UnrefThenShrink(s: State, k: Slot, t: State)
    requires k in s.newTab && s.newTab[k] in s.info
    requires t == Unref(s, k).(info := t.info, addr := t.addr, random := t.random, nNew := t.nNew)
    requires Shrunk(Unref(s, k), t, {}) || Shrunk(Unref(s, k), t, {s.newTab[k]})
    ensures ClearFrame(s, t, k)
  {
  }

  // ---- MakeTried

  lemma StripTables(net: Net, s: State, id: int)
    requires s.NewSlotsOk(net) && s.RefCountsOk(net) && id in s.info
    ensures Strip(net, s, id).NewSlotsOk(net) && Strip(net, s, id).RefCountsOk(net)
    ensures Strip(net, s, id).info[id].refCount == 0
  {
    var t := Strip(net, s, id);
    forall x | x in t.info
      ensures t.info[x].refCount == |t.Buckets(net, t.info[x].addr, x)|
    {
      if x == id {
        assert t.Buckets(net, t.info[x].addr, x) == {};
      } else {
        assert t.Buckets(net, t.info[x].addr, x) == s.Buckets(net, s.info[x].addr, x);
      }
    }
  }

  lemma StripKeeps(net: Net, s: State, id: int)
    requires s.Structured(net) && id in s.info && !s.info[id].inTried
    ensures Strip(net, s, id).Weak(net, {id}, 1, 0)
    ensures Strip(net, s, id).info[id].refCount == 0
  {
    StripTables(net, s, id);
    assert OnlyRef(s, Strip(net, s, id), id);
    RefTransfers(net, s, Strip(net, s, id), id, 0, 0);
    RefEntries(s, Strip(net, s, id), id, {});
    assert {} + {id} == {id};
  }

  lemma DemoteTables(net: Net, s: State, k: Slot)
    requires s.TriedTableOk(net) && s.NewSlotsOk(net) && s.RefCountsOk(net) && k in s.triedTab
    ensures s.triedTab[k] in s.info
    ensures var t := Demote(s, k, s.triedTab[k]); t.TriedTableOk(net) && t.NewSlotsOk(net) && t.RefCountsOk(net)
  {
    var id := s.triedTab[k];
    var t := Demote(s, k, id);
    forall x | x in t.info
      ensures t.info[x].refCount == |t.Buckets(net, t.info[x].addr, x)|
    {
      assert t.Buckets(net, t.info[x].addr, x) == s.Buckets(net, s.info[x].addr, x);
    }
  }

  /** Only the tried table, its counter and the tried flag of id differ. */
  ghost predicate OnlyTried(s: State, t: State, id: int) {
    && id in s.info && id in t.info
    && t == s.(info := s.info[id := s.info[id].(inTried := t.info[id].inTried)], triedTab := t.triedTab,
      nTried := t.nTried)
  }

  lemma OnlyTriedCounts(s: State, t: State, id: int, dNew: int, dTried: int)
    requires OnlyTried(s, t, id) && s.CountersOk(dNew, dTried) && s.info[id].inTried != t.info[id].inTried
    ensures s.info[id].inTried ==> t.CountersOk(dNew + 1, dTried - 1 + s.nTried - t.nTried)
    ensures t.info[id].inTried ==> t.CountersOk(dNew - 1, dTried + 1 + s.nTried - t.nTried)
  {
    if s.info[id].inTried {
      assert t.NewIds() == s.NewIds() + {id};
      assert t.TriedIds() == s.TriedIds() - {id};
    } else {
      assert t.NewIds() == s.NewIds() - {id};
      assert t.TriedIds() == s.TriedIds() + {id};
    }
  }

  lemma OnlyTriedTransfers(s: State, t: State, id: int, dNew: int, dTried: int)
    requires OnlyTried(s, t, id) && s.AddrIndexed() && s.RandomIndexed() && s.CountersOk(dNew, dTried)
    requires s.info[id].inTried != t.info[id].inTried
    ensures t.AddrIndexed() && t.RandomIndexed()
    ensures s.info[id].inTried ==> t.CountersOk(dNew + 1, dTried - 1 + s.nTried - t.nTried)
    ensures t.info[id].inTried ==> t.CountersOk(dNew - 1, dTried + 1 + s.nTried - t.nTried)
  {
    assert t.info.Keys == s.info.Keys;
    AddrTransfers(s, t);
    RandomTransfers(s, t);
    OnlyTriedCounts(s, t, id, dNew, dTried);
  }

  lemma DemoteKeeps(net: Net, s: State, k: Slot, limbo: set<int>, dNew: int, dTried: int)
    requires s.Weak(net, limbo, dNew, dTried) && k in s.triedTab
    ensures s.triedTab[k] in s.info && s.info[s.triedTab[k]].inTried && s.info[s.triedTab[k]].refCount == 0
    ensures Demote(s, k, s.triedTab[k]).Weak(net, limbo + {s.triedTab[k]}, dNew + 1, dTried)
  {
    var id := s.triedTab[k];
    assert s.Buckets(net, s.info[id].addr, id) == {};
    DemoteTables(net, s, k);
    OnlyTriedTransfers(s, Demote(s, k, id), id, dNew, dTried);
    DemoteEntries(s, k, id, limbo);
  }

  lemma DemoteEntries(s: State, k: Slot, id: int, limbo: set<int>)
    requires s.EntriesOk(limbo) && id in s.info
    ensures Demote(s, k, id).EntriesOk(limbo + {id})
  {
  }

  lemma SettleKeeps(net: Net, s: State, k: Slot, id: int, limbo: set<int>, dNew: int, dTried: int)
    requires s.Weak(net, limbo, dNew, dTried) && FitsAt(net, s, k, id) && s.info[id].refCount == 0
    ensures Settle(s, k, id).Weak(net, limbo - {id}, dNew - 1, dTried)
  {
    AddRefSlots(net, s, k, id);
    AddRefCounts(net, s, k, id);
    SettleIsAddRef(net, s, k, id);
    RefTransfers(net, s, Settle(s, k, id), id, dNew, dTried);
    RefEntries(s, Settle(s, k, id), id, limbo);
  }

  lemma SettleIsAddRef(net: Net, s: State, k: Slot, id: int)
    requires id in s.info && s.info[id].refCount == 0
    requires AddRef(s, k, id).NewSlotsOk(net) && AddRef(s, k, id).RefCountsOk(net)
    ensures Settle(s, k, id).NewSlotsOk(net) && Settle(s, k, id).RefCountsOk(net)
  {
    var a, t := AddRef(s, k, id), Settle(s, k, id);
    forall x | x in t.info
      ensures t.info[x].refCount == |t.Buckets(net, t.info[x].addr, x)|
    {
      assert t.Buckets(net, t.info[x].addr, x) == a.Buckets(net, a.info[x].addr, x);
    }
  }

  lemma PlaceTables(net: Net, s: State, k: Slot, id: int)
    requires s.TriedTableOk(net) && s.NewSlotsOk(net) && s.RefCountsOk(net)
    requires id in s.info && !s.info[id].inTried && s.info[id].refCount == 0
    requires k == s.TriedSlot(net, s.info[id].addr) && k !in s.triedTab
    ensures var t := Place(s, k, id); t.TriedTableOk(net) && t.NewSlotsOk(net) && t.RefCountsOk(net)
  {
    var t := Place(s, k, id);
    NotHeld(net, s, id);
    forall x | x in t.info
      ensures t.info[x].refCount == |t.Buckets(net, t.info[x].addr, x)|
    {
      assert t.Buckets(net, t.info[x].addr, x) == s.Buckets(net, s.info[x].addr, x);
    }
  }

  lemma PlaceKeeps(net: Net, s: State, k: Slot, id: int, dNew: int, dTried: int)
    requires s.Weak(net, {id}, dNew, dTried)
    requires id in s.info && !s.info[id].inTried && s.info[id].refCount == 0
    requires k == s.TriedSlot(net, s.info[id].addr) && k !in s.triedTab
    ensures Place(s, k, id).Weak(net, {}, dNew - 1, dTried)
  {
    PlaceTables(net, s, k, id);
    OnlyTriedTransfers(s, Place(s, k, id), id, dNew, dTried);
    PlaceEntries(s, k, id);
  }

  lemma PlaceEntries(s: State, k: Slot, id: int)
    requires s.EntriesOk({id}) && id in s.info
    ensures Place(s, k, id).EntriesOk({})
  {
  }

  /** Key, ids, collisions and the last success are kept; surviving entries keep their address and statistics. */
  ghost predicate Narrowed(s: State, t: State) {
    && t.key == s.key && t.idCount == s.idCount && t.collisions == s.collisions && t.lastGood == s.lastGood
    && (forall x :: x in t.info ==>
      x in s.info && t.info[x].addr == s.info[x].addr && t.info[x].stats == s.info[x].stats)
  }

  /** The entry id of s is still in t, at most moved in random. */
  ghost predicate Kept(s: State, t: State, id: int) {
    id in s.info && id in t.info && t.info[id] == s.info[id].(randomPos := t.info[id].randomPos)
  }

  lemma AfterClear(net: Net, d: State, c: State, home: Slot, e: int)
    requires ClearFrame(d, c, home) && d.NewSlotsOk(net) && d.RefCountsOk(net)
    requires e in d.info && d.info[e].refCount == 0
    ensures Kept(d, c, e) && home !in c.newTab
  {
    NotHeld(net, d, e);
  }

  /** The state in which e, just demoted, takes back its home slot. */
  ghost predicate Homeless(net: Net, d: State, home: Slot, e: int) {
    && e in d.info && !d.info[e].inTried && d.info[e].refCount == 0
    && 0 <= home.bucket < NEW_BUCKET_COUNT && home == d.NewSlot(net, d.info[e].addr, home.bucket)
  }

  lemma MakeRoom(net: Net, d: State, home: Slot, e: int, limbo: set<int>, dNew: int, dTried: int)
    requires d.Weak(net, limbo, dNew, dTried) && Homeless(net, d, home, e)
    ensures ClearNew(d, home).Weak(net, limbo, dNew, dTried)
    ensures ClearFrame(d, ClearNew(d, home), home) && FitsAt(net, ClearNew(d, home), home, e)
    ensures ClearNew(d, home).info[e].refCount == 0
  {
    ClearNewKeeps(net, d, home, limbo, dNew, dTried);
    AfterClear(net, d, ClearNew(d, home), home, e);
  }

  lemma ResettleKeeps(net: Net, d: State, home: Slot, e: int, limbo: set<int>, dNew: int, dTried: int)
    requires d.Weak(net, limbo + {e}, dNew + 1, dTried) && Homeless(net, d, home, e)
    ensures Resettle(d, home, e).Weak(net, limbo, dNew, dTried)
  {
    MakeRoom(net, d, home, e, limbo + {e}, dNew + 1, dTried);
    SettleKeeps(net, ClearNew(d, home), home, e, limbo + {e}, dNew + 1, dTried);
    EntriesShrinkLimbo(Resettle(d, home, e), limbo + {e} - {e}, limbo);
  }

  /** Settling e at a slot that was cleared for it. */
  lemma SettledFrame(d: State, c: State, home: Slot, e: int, id: int)
    requires ClearFrame(d, c, home) && e in c.info && id != e && Kept(d, c, id)
    ensures var t := Settle(c, home, e); Kept(d, t, id) && Narrowed(d, t) && t.triedTab == d.triedTab
  {
  }

  lemma ResettleFrame(net: Net, d: State, home: Slot, e: int, id: int, limbo: set<int>, dNew: int, dTried: int)
    requires d.Weak(net, limbo, dNew, dTried) && Homeless(net, d, home, e)
    requires id in d.info && d.info[id].refCount == 0 && id != e
    ensures var t := Resettle(d, home, e); Kept(d, t, id) && Narrowed(d, t) && t.triedTab == d.triedTab
  {
    MakeRoom(net, d, home, e, limbo, dNew, dTried);
    AfterClear(net, d, ClearNew(d, home), home, id);
    SettledFrame(d, ClearNew(d, home), home, e, id);
  }

  lemma DemotedIsHomeless(net: Net, s: State, k: Slot, id: int)
    requires s.TriedTableOk(net) && s.NewSlotsOk(net) && s.RefCountsOk(net) && k in s.triedTab
    ensures var e := s.triedTab[k]; e in s.info && Homeless(net, Demote(s, k, e), HomeSlot(net, s, s.info[e]), e)
    ensures id in s.info && !s.info[id].inTried ==> id != s.triedTab[k]
  {
    var e := s.triedTab[k];
    assert s.Buckets(net, s.info[e].addr, e) == {};
  }

  lemma EvictKeeps(net: Net, s: State, k: Slot, id: int, dNew: int, dTried: int)
    requires s.Weak(net, {id}, dNew, dTried)
    requires id in s.info && !s.info[id].inTried && s.info[id].refCount == 0
    ensures Evict(net, s, k).Weak(net, {id}, dNew, dTried)
  {
    if k in s.triedTab {
      var e := s.triedTab[k];
      DemotedIsHomeless(net, s, k, id);
      DemoteKeeps(net, s, k, {id}, dNew, dTried);
      ResettleKeeps(net, Demote(s, k, e), HomeSlot(net, s, s.info[e]), e, {id}, dNew, dTried);
    }
  }

  lemma EvictFrame(net: Net, s: State, k: Slot, id: int, dNew: int, dTried: int)
    requires s.Weak(net, {id}, dNew, dTried)
    requires id in s.info && !s.info[id].inTried && s.info[id].refCount == 0
    ensures var t := Evict(net, s, k); Kept(s, t, id) && Narrowed(s, t) && t.triedTab == s.triedTab - {k}
  {
    if k in s.triedTab {
      var e := s.triedTab[k];
      DemotedIsHomeless(net, s, k, id);
      DemoteKeeps(net, s, k, {id}, dNew, dTried);
      ResettleFrame(net, Demote(s, k, e), HomeSlot(net, s, s.info[e]), e, id, {id} + {e}, dNew + 1, dTried);
      NarrowedAfterDemote(s, k, e, Evict(net, s, k), id);
    } else {
      assert s.triedTab - {k} == s.triedTab;
    }
  }

  lemma NarrowedAfterDemote(s: State, k: Slot, e: int, t: State, id: int)
    requires e in s.info && id in s.info && id != e && Narrowed(Demote(s, k, e), t) && Kept(Demote(s, k, e), t, id)
    ensures Narrowed(s, t) && Kept(s, t, id)
  {
  }

  lemma PlaceFrame(r: State, t: State, k: Slot, id: int)
    requires Kept(r, t, id) && Narrowed(r, t) && t.triedTab == r.triedTab - {k}
    ensures Narrowed(r, PlaceIfKnown(t, k, id)) && PlaceIfKnown(t, k, id).triedTab == r.triedTab[k := id]
  {
    assert (r.triedTab - {k})[k := id] == r.triedTab[k := id];
  }

  lemma PlaceKnown(net: Net, r: State, t: State, k: Slot, id: int)
    requires t.Weak(net, {id}, 1, 0) && Kept(r, t, id) && Narrowed(r, t) && t.triedTab == r.triedTab - {k}
    requires !r.info[id].inTried && r.info[id].refCount == 0
    requires k == r.TriedSlot(net, r.info[id].addr)
    ensures PlaceIfKnown(t, k, id).Structured(net)
  {
    PlaceKeeps(net, t, k, id, 1, 0);
  }

  lemma EvictThenPlace(net: Net, r: State, k: Slot, id: int)
    requires r.Weak(net, {id}, 1, 0)
    requires id in r.info && !r.info[id].inTried && r.info[id].refCount == 0
    requires k == r.TriedSlot(net, r.info[id].addr)
    ensures var t := PlaceIfKnown(Evict(net, r, k), k, id);
      t.Structured(net) && Narrowed(r, t) && t.triedTab == r.triedTab[k := id]
  {
    EvictKeeps(net, r, k, id, 1, 0);
    EvictFrame(net, r, k, id, 1, 0);
    PlaceKnown(net, r, Evict(net, r, k), k, id);
    PlaceFrame(r, Evict(net, r, k), k, id);
  }

  lemma MakeTriedKeeps(net: Net, s: State, id: int)
    requires s.Structured(net) && id in s.info && !s.info[id].inTried
    ensures MakeTried(net, s, id).Structured(net)
    ensures Narrowed(s, MakeTried(net, s, id))
    ensures var t := MakeTried(net, s, id); t.triedTab == s.triedTab[s.TriedSlot(net, s.info[id].addr) := id]
  {
    StripKeeps(net, s, id);
    EvictThenPlace(net, Strip(net, s, id), s.TriedSlot(net, s.info[id].addr), id);
  }
}
