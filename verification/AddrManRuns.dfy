/**
 What each operation of the address manager keeps: every index, counter, reference count
 and slot, the pending collisions, and ids and filled tried slots.
 */
module AddrManRuns {
  import opened AddrManState
  import opened AddrManOps
  import opened AddrManSteps
  import opened AddrManProof
  import opened IntSets

  // ---- changes the tables do not see

  ghost predicate SameTables(s: State, t: State) {
    && t == s.(info := t.info, lastGood := t.lastGood, collisions := t.collisions)
    && t.info.Keys == s.info.Keys
    && (forall x :: x in s.info ==> t.info[x] == s.info[x].(stats := t.info[x].stats))
  }

  lemma SameTablesKeep(net: Net, s: State, t: State, limbo: set<int>)
    requires s.Weak(net, limbo, 0, 0) && SameTables(s, t)
    ensures t.Weak(net, limbo, 0, 0)
  {
    AddrTransfers(s, t);
    RandomTransfers(s, t);
    TriedTransfers(net, s, t);
    NewTransfers(net, s, t);
    IdsTransfer(s, t);
  }

  lemma StatsKeep(net: Net, s: State, id: int, st: Stats, limbo: set<int>)
    requires s.Weak(net, limbo, 0, 0) && id in s.info
    ensures WithInfo(s, id, s.info[id].(stats := st)).Weak(net, limbo, 0, 0)
    ensures SameTables(s, WithInfo(s, id, s.info[id].(stats := st)))
  {
    SameTablesKeep(net, s, WithInfo(s, id, s.info[id].(stats := st)), limbo);
  }

  lemma FindKnown(s: State, a: NetAddr)
    requires s.AddrIndexed()
    ensures var id := Find(s, a); if a in s.addr then id in s.info && id >= 0 && s.info[id].addr.ip == a else id == -1
  {
  }

  // ---- what every operation keeps from one state to the next

  /** The key is kept, ids are not reused, known ids keep their address, filled tried slots stay filled. */
  ghost predicate Evolves(s: State, t: State) {
    && t.key == s.key && s.idCount <= t.idCount && t.KeepsTriedSlots(s)
    && (forall x :: x in t.info && x < s.idCount ==> x in s.info && t.info[x].addr == s.info[x].addr)
  }

  lemma CollisionsKeep(net: Net, s: State, t: State)
    requires s.CollisionsOk(net) && Evolves(s, t) && t.collisions <= s.collisions
    ensures t.CollisionsOk(net)
  {
    SubsetSize(t.collisions, s.collisions);
    forall id | id in t.collisions && id in t.info
      ensures t.TriedSlot(net, t.info[id].addr) in t.triedTab
    {
      assert s.TriedSlot(net, s.info[id].addr) in s.triedTab.Keys;
    }
  }

  /** One operation took s to t and all is well. */
  ghost predicate Fine(net: Net, s: State, t: State) { t.Sound(net) && Evolves(s, t) }

  lemma EvolvesTrans(s: State, t: State, u: State)
    requires Evolves(s, t) && Evolves(t, u)
    ensures Evolves(s, u)
  {
  }

  lemma EmptyIsFine(net: Net, key: Key)
    ensures Empty(key).Sound(net)
  {
    assert Empty(key).NewIds() == {} && Empty(key).TriedIds() == {};
  }

  // ---- Good

  lemma CollideKeeps(net: Net, s: State, id: int)
    requires s.Sound(net) && id in s.info && s.TriedSlot(net, s.info[id].addr) in s.triedTab
    ensures Fine(net, s, Collide(s, id))
  {
    SameTablesKeep(net, s, Collide(s, id), {});
    CollideNoted(net, s, id);
  }

  lemma CollideNoted(net: Net, s: State, id: int)
    requires s.CollisionsOk(net) && id in s.info && 0 <= id < s.idCount
    requires s.TriedSlot(net, s.info[id].addr) in s.triedTab
    ensures Collide(s, id).CollisionsOk(net) && Evolves(s, Collide(s, id))
  {
  }

  lemma MakeTriedFine(net: Net, s: State, id: int)
    requires s.Sound(net) && id in s.info && !s.info[id].inTried
    ensures Fine(net, s, MakeTried(net, s, id)) && MakeTried(net, s, id).collisions == s.collisions
  {
    MakeTriedKeeps(net, s, id);
    NarrowedEvolves(s, MakeTried(net, s, id), s.TriedSlot(net, s.info[id].addr), id);
    CollisionsKeep(net, s, MakeTried(net, s, id));
  }

  lemma NarrowedEvolves(s: State, t: State, k: Slot, id: int)
    requires Narrowed(s, t) && t.triedTab == s.triedTab[k := id]
    ensures Evolves(s, t)
  {
  }

  lemma PromoteKeeps(net: Net, s: State, id: int, testBeforeEvict: bool)
    requires s.Sound(net) && id in s.info
    ensures Fine(net, s, Promote(net, s, id, testBeforeEvict))
    ensures !testBeforeEvict ==> Promote(net, s, id, testBeforeEvict).collisions == s.collisions
  {
    if s.info[id].inTried || s.Buckets(net, s.info[id].addr, id) == {} {
    } else if testBeforeEvict && s.TriedSlot(net, s.info[id].addr) in s.triedTab {
      CollideKeeps(net, s, id);
    } else {
      MakeTriedFine(net, s, id);
    }
  }

  lemma TouchKeeps(net: Net, s: State, id: int, time: int)
    requires s.Sound(net) && id in s.info
    ensures Fine(net, s, Touch(s, id, time)) && Touch(s, id, time).collisions == s.collisions
  {
    StatsKeep(net, s, id, s.info[id].stats.(lastSuccess := time, lastTry := time, attempts := 0), {});
    CollisionsKeep(net, s, Touch(s, id, time));
  }

  lemma LastGoodKeeps(net: Net, s: State, time: int)
    requires s.Sound(net)
    ensures Fine(net, s, s.(lastGood := time))
  {
    SameTablesKeep(net, s, s.(lastGood := time), {});
    CollisionsKeep(net, s, s.(lastGood := time));
  }

  lemma TouchThenPromote(net: Net, s: State, id: int, testBeforeEvict: bool, time: int)
    requires s.Sound(net) && id in s.info
    ensures Fine(net, s, Promote(net, Touch(s, id, time), id, testBeforeEvict))
    ensures !testBeforeEvict ==> Promote(net, Touch(s, id, time), id, testBeforeEvict).collisions == s.collisions
  {
    TouchKeeps(net, s, id, time);
    PromoteKeeps(net, Touch(s, id, time), id, testBeforeEvict);
    EvolvesTrans(s, Touch(s, id, time), Promote(net, Touch(s, id, time), id, testBeforeEvict));
  }

  lemma GoodKeeps(net: Net, s: State, addr: Service, testBeforeEvict: bool, time: int)
    requires s.Sound(net)
    ensures Fine(net, s, Good(net, s, addr, testBeforeEvict, time))
    ensures !testBeforeEvict ==> Good(net, s, addr, testBeforeEvict, time).collisions == s.collisions
  {
    LastGoodKeeps(net, s, time);
    FindKnown(s.(lastGood := time), addr.ip);
    var id := Find(s.(lastGood := time), addr.ip);
    if id in s.info && s.info[id].addr == addr {
      TouchThenPromote(net, s.(lastGood := time), id, testBeforeEvict, time);
      EvolvesTrans(s, s.(lastGood := time), Good(net, s, addr, testBeforeEvict, time));
    }
  }

  // ---- Add

  lemma AddRefFine(net: Net, s: State, k: Slot, id: int)
    requires s.Weak(net, {id}, 0, 0) && FitsAt(net, s, k, id) && s.info[id].refCount < NEW_BUCKETS_PER_ADDRESS
    ensures AddRef(s, k, id).Structured(net)
  {
    AddRefKeeps(net, s, k, id, {id}, 0, 0);
    assert {id} - {id} == {};
  }

  /** Slot k is where id may get a reference; t is s with k cleared. */
  lemma InsertAtKeeps(net: Net, s: State, k: Slot, id: int)
    requires s.Weak(net, {id}, 0, 0) && id in s.info && !s.info[id].inTried
    requires s.info[id].refCount < NEW_BUCKETS_PER_ADDRESS
    requires 0 <= k.bucket < NEW_BUCKET_COUNT && k == s.NewSlot(net, s.info[id].addr, k.bucket)
    requires k in s.newTab ==> s.newTab[k] != id
    ensures id in ClearNew(s, k).info
    ensures AddRef(ClearNew(s, k), k, id).Structured(net)
    ensures ClearFrame(s, ClearNew(s, k), k)
  {
    ClearNewKeeps(net, s, k, {id}, 0, 0);
    assert Kept(s, ClearNew(s, k), id);
    AddRefFine(net, ClearNew(s, k), k, id);
  }

  lemma NotInLimbo(net: Net, s: State, id: int)
    requires s.Weak(net, {id}, 0, 0) && id in s.info && s.info[id].refCount != 0
    ensures s.Structured(net)
  {
    assert s.info[id].refCount == |s.Buckets(net, s.info[id].addr, id)|;
    EntriesShrinkLimbo(s, {id}, {});
  }

  lemma DeleteFine(net: Net, s: State, id: int)
    requires s.Weak(net, {id}, 0, 0) && id in s.info && !s.info[id].inTried && s.info[id].refCount == 0
    ensures CanDelete(s, id) && Delete(s, id).Structured(net)
  {
    DeleteKeeps(net, s, id, {id}, 0, 0);
    assert {id} - {id} == {};
  }

  lemma InsertKeeps(net: Net, s: State, id: int, source: NetAddr, now: int)
    requires s.Weak(net, {id}, 0, 0) && id in s.info && !s.info[id].inTried
    requires s.info[id].refCount < NEW_BUCKETS_PER_ADDRESS
    ensures Insert(net, s, id, source, now).Structured(net)
  {
    var k := s.NewSlot(net, s.info[id].addr, net.newBucket(s.key, s.info[id].addr.ip, source));
    if k in s.newTab && s.newTab[k] == id {
      assert k.bucket in s.Buckets(net, s.info[id].addr, id);
      NotInLimbo(net, s, id);
    } else if k !in s.newTab || (s.newTab[k] in s.info && CanReplace(s.info[s.newTab[k]], s.info[id], now)) {
      InsertAtKeeps(net, s, k, id);
    } else if s.info[id].refCount == 0 {
      DeleteFine(net, s, id);
    } else {
      NotInLimbo(net, s, id);
    }
  }

  /** A reference in a slot that was cleared for it. */
  lemma ReferredFrame(s: State, c: State, k: Slot, id: int)
    requires ClearFrame(s, c, k) && id in c.info
    ensures Narrowed(s, AddRef(c, k, id)) && AddRef(c, k, id).triedTab == s.triedTab
  {
  }

  lemma DeletedFrame(s: State, t: State, id: int)
    requires Shrunk(s, t, {id}) && t == s.(info := t.info, addr := t.addr, random := t.random, nNew := s.nNew - 1)
    ensures Narrowed(s, t) && t.triedTab == s.triedTab
  {
  }

  lemma InsertFrame(net: Net, s: State, id: int, source: NetAddr, now: int)
    requires s.Weak(net, {id}, 0, 0) && id in s.info && !s.info[id].inTried
    requires s.info[id].refCount < NEW_BUCKETS_PER_ADDRESS
    ensures Narrowed(s, Insert(net, s, id, source, now)) && Insert(net, s, id, source, now).triedTab == s.triedTab
  {
    var k := s.NewSlot(net, s.info[id].addr, net.newBucket(s.key, s.info[id].addr.ip, source));
    if k in s.newTab && s.newTab[k] == id {
    } else if k !in s.newTab || (s.newTab[k] in s.info && CanReplace(s.info[s.newTab[k]], s.info[id], now)) {
      InsertAtKeeps(net, s, k, id);
      ReferredFrame(s, ClearNew(s, k), k, id);
    } else if s.info[id].refCount == 0 {
      DeleteShrinks(s, id);
      DeletedFrame(s, Delete(s, id), id);
    }
  }

  lemma InsertFine(net: Net, s: State, id: int, source: NetAddr, now: int)
    requires s.Weak(net, {id}, 0, 0) && s.CollisionsOk(net)
    requires id in s.info && !s.info[id].inTried && s.info[id].refCount < NEW_BUCKETS_PER_ADDRESS
    ensures Fine(net, s, Insert(net, s, id, source, now))
  {
    InsertKeeps(net, s, id, source, now);
    InsertFrame(net, s, id, source, now);
    CollisionsKeep(net, s, Insert(net, s, id, source, now));
  }

  lemma WeakenLimbo(net: Net, s: State, id: int)
    requires s.Structured(net)
    ensures s.Weak(net, {id}, 0, 0)
  {
    EntriesShrinkLimbo(s, {}, {id});
  }

  lemma AddKnownKeeps(net: Net, s: State, id: int, a: Address, source: NetAddr, penalty: int, now: int,
                      draw: nat -> nat)
    requires s.Sound(net) && id in s.info
    ensures Fine(net, s, AddKnown(net, s, id, a, source, penalty, now, draw))
  {
    var st := Merge(s.info[id].stats, a, penalty, now);
    var t := WithInfo(s, id, s.info[id].(stats := st));
    StatsKeep(net, s, id, st, {});
    CollisionsKeep(net, s, t);
    if WantsRef(t.info[id], a, draw) {
      WeakenLimbo(net, t, id);
      InsertFine(net, t, id, source, now);
      EvolvesTrans(s, t, Insert(net, t, id, source, now));
    }
  }

  lemma CreateFine(net: Net, s: State, a: Address, source: NetAddr, penalty: int)
    requires s.Sound(net) && a.service.ip !in s.addr
    ensures var u := Announced(s, a, source, penalty);
      && u.Weak(net, {s.idCount}, 0, 0) && u.CollisionsOk(net) && Evolves(s, u)
  {
    CreateKeeps(net, s, a, source, {}, 0, 0);
    assert {} + {s.idCount} == {s.idCount};
    NewcomerKeeps(net, Create(s, a, source), s.idCount, penalty);
    CollisionsKeep(net, s, Announced(s, a, source, penalty));
  }

  lemma NewcomerKeeps(net: Net, c: State, id: int, penalty: int)
    requires c.Weak(net, {id}, 1, 0) && id in c.info
    ensures Newcomer(c, id, penalty).Weak(net, {id}, 0, 0)
  {
    var t := Newcomer(c, id, penalty);
    AddrTransfers(c, t);
    RandomTransfers(c, t);
    TriedTransfers(net, c, t);
    NewTransfers(net, c, t);
    IdsTransfer(c, t);
  }

  lemma AddUnknownKeeps(net: Net, s: State, a: Address, source: NetAddr, penalty: int, now: int)
    requires s.Sound(net) && a.service.ip !in s.addr
    ensures Fine(net, s, AddUnknown(net, s, a, source, penalty, now))
  {
    CreateFine(net, s, a, source, penalty);
    InsertFine(net, Announced(s, a, source, penalty), s.idCount, source, now);
    EvolvesTrans(s, Announced(s, a, source, penalty), AddUnknown(net, s, a, source, penalty, now));
  }

  lemma AddKeeps(net: Net, s: State, a: Address, source: NetAddr, penalty: int, now: int, draw: nat -> nat)
    requires s.Sound(net)
    ensures Fine(net, s, Add(net, s, a, source, penalty, now, draw).state)
  {
    FindKnown(s, a.service.ip);
    var p := if a.service.ip == source then 0 else penalty;
    if net.isRoutable(a.service.ip) {
      if a.service.ip in s.addr {
        AddKnownKeeps(net, s, Find(s, a.service.ip), a, source, p, now, draw);
      } else {
        AddUnknownKeeps(net, s, a, source, p, now);
      }
    }
  }

  // ---- the other operations

  lemma StatsFine(net: Net, s: State, id: int, st: Stats)
    requires s.Sound(net) && id in s.info
    ensures Fine(net, s, WithInfo(s, id, s.info[id].(stats := st)))
  {
    StatsKeep(net, s, id, st, {});
    CollisionsKeep(net, s, WithInfo(s, id, s.info[id].(stats := st)));
  }

  lemma AttemptKeeps(net: Net, s: State, addr: Service, countFailure: bool, time: int)
    requires s.Sound(net)
    ensures Fine(net, s, Attempt(s, addr, countFailure, time))
  {
    FindKnown(s, addr.ip);
    var id := Find(s, addr.ip);
    if id in s.info && s.info[id].addr == addr {
      StatsFine(net, s, id, Attempted(s.info[id].stats, s.lastGood, countFailure, time));
    }
  }

  lemma ConnectedKeeps(net: Net, s: State, addr: Service, time: int)
    requires s.Sound(net)
    ensures Fine(net, s, Connected(s, addr, time))
  {
    FindKnown(s, addr.ip);
    var id := Find(s, addr.ip);
    if id in s.info && s.info[id].addr == addr {
      StatsFine(net, s, id, Seen(s.info[id].stats, time));
    }
  }

  lemma SetServicesKeeps(net: Net, s: State, addr: Service, services: bv64)
    requires s.Sound(net)
    ensures Fine(net, s, SetServices(s, addr, services))
  {
    FindKnown(s, addr.ip);
    var id := Find(s, addr.ip);
    if id in s.info && s.info[id].addr == addr {
      StatsFine(net, s, id, s.info[id].stats.(services := services));
    }
  }

  lemma ShuffleEvolves(net: Net, s: State, t: State)
    requires OnlyRandomPos(s, t) && s.CollisionsOk(net)
    ensures Evolves(s, t) && t.CollisionsOk(net)
  {
    CollisionsKeep(net, s, t);
  }

  lemma SwapFine(net: Net, s: State, i: nat, j: nat)
    requires s.Sound(net) && i < |s.random| && j < |s.random|
    ensures s.random[i] in s.info && s.random[j] in s.info
    ensures Fine(net, s, SwapRandom(s, i, j))
  {
    SwapKeeps(net, s, i, j, {}, 0, 0);
    SwapInfo(s, i, j);
    ShuffleEvolves(net, s, SwapRandom(s, i, j));
  }

  lemma DrawFine(net: Net, s: State, n: nat, draw: nat -> nat)
    requires s.Sound(net) && n < |s.random|
    ensures Fine(net, s, Draw(s, n, draw))
  {
    SwapFine(net, s, n, if n <= draw(n) < |s.random| then draw(n) else n);
  }

  lemma GetAddrKeeps(net: Net, s: State, now: int, draw: nat -> nat)
    requires s.Sound(net)
    ensures Fine(net, s, GetAddr(s, now, draw).state)
  {
    forall u, m: nat | Fine(net, s, u) && m < |u.random|
      ensures Fine(net, s, Draw(u, m, draw))
    {
      DrawFine(net, u, m, draw);
      EvolvesTrans(s, u, Draw(u, m, draw));
    }
    OverDraws(s, 0, [], GetAddrLimit(|s.random|), now, draw, u => Fine(net, s, u));
  }

  lemma DropCollision(net: Net, s: State, id: int)
    requires s.Sound(net)
    ensures Fine(net, s, s.(collisions := s.collisions - {id}))
  {
    SameTablesKeep(net, s, s.(collisions := s.collisions - {id}), {});
    CollisionsKeep(net, s, s.(collisions := s.collisions - {id}));
  }

  lemma ResolveOneKeeps(net: Net, s: State, id: int, now: int)
    requires s.Sound(net)
    ensures Fine(net, s, ResolveOne(net, s, id, now)) && ResolveOne(net, s, id, now).collisions <= s.collisions
  {
    match Judge(net, s, id, now)
    case Keep =>
    case Drop => DropCollision(net, s, id);
    case Swap =>
      var t := Good(net, s, s.info[id].addr, false, now);
      GoodKeeps(net, s, s.info[id].addr, false, now);
      DropCollision(net, t, id);
      EvolvesTrans(s, t, ResolveOne(net, s, id, now));
  }

  lemma {:induction false} ResolveFromKeeps(net: Net, s: State, pending: set<int>, now: int)
    requires s.Sound(net)
    ensures Fine(net, s, ResolveFrom(net, s, pending, now))
    decreases pending
  {
    if pending != {} {
      var m := Min(pending);
      ResolveOneKeeps(net, s, m, now);
      ResolveFromKeeps(net, ResolveOne(net, s, m, now), pending - {m}, now);
      EvolvesTrans(s, ResolveOne(net, s, m, now), ResolveFrom(net, s, pending, now));
    }
  }

  /** The entry a pending collision competes with is a real tried entry. */
  lemma SelectKeeps(net: Net, s: State, id: int)
    requires s.Sound(net)
    ensures Fine(net, s, SelectTriedCollision(net, s, id).state)
    ensures SelectTriedCollision(net, s, id).state.info == s.info
    ensures id in s.collisions && id in s.info ==>
      SelectTriedCollision(net, s, id).info in s.info.Values && SelectTriedCollision(net, s, id).info.inTried
  {
    DropCollision(net, s, id);
    if id in s.collisions && id in s.info {
      var k := s.TriedSlot(net, s.info[id].addr);
      var rival := s.triedTab[k];
      assert rival in s.info;
      assert s.info[rival] in s.info.Values;
    }
  }
}
