/**
 Recorded times. Whatever the clock says, the operations keep the structure of the
 manager; what they make of the recorded times depends on the time they are given.
 */
module AddrManTimes {
  import opened AddrManState
  import opened AddrManOps
  import opened AddrManProof
  import opened AddrManRuns
  import opened IntSets

  /** Is there an entry for exactly this service? */
  predicate Known(s: State, addr: Service) {
    addr.ip in s.addr && s.addr[addr.ip] in s.info && s.info[s.addr[addr.ip]].addr == addr
  }

  /** Entries keep their statistics, and only id may have become tried. */
  lemma NarrowedTimes(net: Net, s: State, t: State, k: Slot, id: int)
    requires s.TriedTableOk(net) && t.TriedTableOk(net) && Narrowed(s, t) && s.TimesOk()
    requires t.triedTab == s.triedTab || t.triedTab == s.triedTab[k := id]
    requires id in s.info && t.triedTab != s.triedTab ==> s.info[id].stats.lastSuccess != 0
    ensures t.TimesOk()
  {
    forall x | x in t.info && t.info[x].inTried
      ensures t.info[x].stats.lastSuccess != 0
    {
      var at := t.TriedSlot(net, t.info[x].addr);
      assert t.triedTab[at] == x;
      if t.triedTab == s.triedTab || at != k {
        assert s.triedTab[at] == x;
      }
    }
  }

  // ---- Good

  /** Exactly when a report of success at this time leaves possible times. */
  predicate GoodTimely(net: Net, s: State, addr: Service, testBeforeEvict: bool, time: int) {
    Known(s, addr) ==>
      || time > 0
      || (time == 0 && testBeforeEvict && !s.info[s.addr[addr.ip]].inTried && s.TriedSlot(net, addr) in s.triedTab)
  }

  lemma PromoteTimes(net: Net, s: State, id: int, testBeforeEvict: bool)
    requires s.Sound(net) && s.TimesOk() && id in s.info
    requires s.info[id].stats.lastSuccess != 0 || s.info[id].inTried ||
      (testBeforeEvict && s.TriedSlot(net, s.info[id].addr) in s.triedTab)
    ensures Promote(net, s, id, testBeforeEvict).TimesOk()
  {
    if !s.info[id].inTried && s.Buckets(net, s.info[id].addr, id) != {} &&
      !(testBeforeEvict && s.TriedSlot(net, s.info[id].addr) in s.triedTab) {
      MakeTriedKeeps(net, s, id);
      NarrowedTimes(net, s, MakeTried(net, s, id), s.TriedSlot(net, s.info[id].addr), id);
    }
  }

  /** The promoted entry is still there, with its statistics; it is tried unless it collided. */
  lemma PromotedEntry(net: Net, s: State, id: int, testBeforeEvict: bool)
    requires s.Sound(net) && id in s.info
    ensures var t := Promote(net, s, id, testBeforeEvict);
      && id in t.info && t.info[id].stats == s.info[id].stats
      && (t.info[id].inTried <==>
        s.info[id].inTried || !(testBeforeEvict && s.TriedSlot(net, s.info[id].addr) in s.triedTab))
  {
    if !s.info[id].inTried {
      assert s.info[id].refCount == |s.Buckets(net, s.info[id].addr, id)|;
      if !(testBeforeEvict && s.TriedSlot(net, s.info[id].addr) in s.triedTab) {
        MadeTried(net, s, id);
      }
    }
  }

  lemma MadeTried(net: Net, s: State, id: int)
    requires s.Structured(net) && id in s.info && !s.info[id].inTried
    ensures var t := MakeTried(net, s, id); id in t.info && t.info[id].inTried && t.info[id].stats == s.info[id].stats
  {
    MakeTriedKeeps(net, s, id);
    var t, k := MakeTried(net, s, id), s.TriedSlot(net, s.info[id].addr);
    assert t.triedTab[k] == id;
  }

  lemma TouchTimes(s: State, id: int, time: int)
    requires s.TimesOk() && id in s.info
    ensures Touch(s, id, time).TimesOk() <==> time > 0 || (time == 0 && !s.info[id].inTried)
  {
    assert id in Touch(s, id, time).info;
  }

  /** The state that Good promotes in, for a known service. */
  lemma GoodTouches(net: Net, s: State, addr: Service, testBeforeEvict: bool, time: int) returns (t: State)
    requires s.Sound(net) && Known(s, addr)
    ensures t == Touch(s.(lastGood := time), s.addr[addr.ip], time) && t.Sound(net)
    ensures Good(net, s, addr, testBeforeEvict, time) == Promote(net, t, s.addr[addr.ip], testBeforeEvict)
  {
    var s1, id := s.(lastGood := time), s.addr[addr.ip];
    FindKnown(s1, addr.ip);
    LastGoodKeeps(net, s, time);
    TouchKeeps(net, s1, id, time);
    t := Touch(s1, id, time);
  }

  lemma GoodTimes(net: Net, s: State, addr: Service, testBeforeEvict: bool, time: int)
    requires s.Sound(net) && s.TimesOk()
    ensures Good(net, s, addr, testBeforeEvict, time).TimesOk() <==> GoodTimely(net, s, addr, testBeforeEvict, time)
  {
    FindKnown(s.(lastGood := time), addr.ip);
    if Known(s, addr) {
      var id := s.addr[addr.ip];
      var t := GoodTouches(net, s, addr, testBeforeEvict, time);
      TouchTimes(s.(lastGood := time), id, time);
      PromotedEntry(net, t, id, testBeforeEvict);
      if GoodTimely(net, s, addr, testBeforeEvict, time) {
        PromoteTimes(net, t, id, testBeforeEvict);
      } else {
        assert id in Good(net, s, addr, testBeforeEvict, time).info;
      }
    } else {
      assert Good(net, s, addr, testBeforeEvict, time).info == s.info;
    }
  }

  // ---- the other operations

  lemma AttemptTimes(net: Net, s: State, addr: Service, countFailure: bool, time: int)
    requires s.Sound(net) && s.TimesOk()
    ensures Attempt(s, addr, countFailure, time).TimesOk() <==> (Known(s, addr) ==> time >= 0)
  {
    FindKnown(s, addr.ip);
    if Known(s, addr) {
      assert s.addr[addr.ip] in Attempt(s, addr, countFailure, time).info;
    }
  }

  lemma ConnectedTimes(s: State, addr: Service, time: int)
    requires s.TimesOk()
    ensures Connected(s, addr, time).TimesOk()
  {
  }

  lemma SetServicesTimes(s: State, addr: Service, services: bv64)
    requires s.TimesOk()
    ensures SetServices(s, addr, services).TimesOk()
  {
  }

  lemma InsertTimes(net: Net, s: State, id: int, source: NetAddr, now: int)
    requires s.Weak(net, {id}, 0, 0) && s.TimesOk()
    requires id in s.info && !s.info[id].inTried && s.info[id].refCount < NEW_BUCKETS_PER_ADDRESS
    ensures Insert(net, s, id, source, now).TimesOk()
  {
    InsertKeeps(net, s, id, source, now);
    InsertFrame(net, s, id, source, now);
    NarrowedTimes(net, s, Insert(net, s, id, source, now), Slot(0, 0), id);
  }

  lemma AddKnownTimes(net: Net, s: State, id: int, a: Address, source: NetAddr, penalty: int, now: int,
                      draw: nat -> nat)
    requires s.Sound(net) && s.TimesOk() && id in s.info
    ensures AddKnown(net, s, id, a, source, penalty, now, draw).TimesOk()
  {
    var t := WithInfo(s, id, s.info[id].(stats := Merge(s.info[id].stats, a, penalty, now)));
    StatsKeep(net, s, id, Merge(s.info[id].stats, a, penalty, now), {});
    assert t.TimesOk();
    if WantsRef(t.info[id], a, draw) {
      WeakenLimbo(net, t, id);
      InsertTimes(net, t, id, source, now);
    }
  }

  lemma AddUnknownTimes(net: Net, s: State, a: Address, source: NetAddr, penalty: int, now: int)
    requires s.Sound(net) && s.TimesOk() && a.service.ip !in s.addr
    ensures AddUnknown(net, s, a, source, penalty, now).TimesOk()
  {
    CreateFine(net, s, a, source, penalty);
    InsertTimes(net, Announced(s, a, source, penalty), s.idCount, source, now);
  }

  lemma AddTimes(net: Net, s: State, a: Address, source: NetAddr, penalty: int, now: int, draw: nat -> nat)
    requires s.Sound(net) && s.TimesOk()
    ensures Add(net, s, a, source, penalty, now, draw).state.TimesOk()
  {
    FindKnown(s, a.service.ip);
    var p := if a.service.ip == source then 0 else penalty;
    if net.isRoutable(a.service.ip) {
      if a.service.ip in s.addr {
        AddKnownTimes(net, s, Find(s, a.service.ip), a, source, p, now, draw);
      } else {
        AddUnknownTimes(net, s, a, source, p, now);
      }
    }
  }

  lemma DrawTimesOk(u: State, m: nat, draw: nat -> nat)
    requires u.TimesOk() && m < |u.random|
    ensures Draw(u, m, draw).TimesOk()
  {
  }

  lemma DrawTimes(net: Net, u: State, m: nat, draw: nat -> nat)
    requires u.Inv(net) && m < |u.random|
    ensures Draw(u, m, draw).Inv(net)
  {
    DrawFine(net, u, m, draw);
    DrawTimesOk(u, m, draw);
  }

  lemma GetAddrTimes(net: Net, s: State, now: int, draw: nat -> nat)
    requires s.Inv(net)
    ensures GetAddr(s, now, draw).state.TimesOk()
  {
    forall u: State, m: nat | u.Inv(net) && m < |u.random|
      ensures Draw(u, m, draw).Inv(net)
    {
      DrawTimes(net, u, m, draw);
    }
    OverDraws(s, 0, [], GetAddrLimit(|s.random|), now, draw, (u: State) => u.Inv(net));
  }

  /** A pending newcomer replaces its rival only some time after the rival succeeded, so only at a positive time. */
  lemma SwapIsLate(net: Net, s: State, id: int, now: int)
    requires s.Sound(net) && s.TimesOk() && id in s.collisions && Judge(net, s, id, now).Swap?
    ensures now > 0
  {
    var rival := s.triedTab[s.TriedSlot(net, s.info[id].addr)];
    assert rival in s.info && s.info[rival].inTried;
  }

  lemma ResolveOneTimes(net: Net, s: State, id: int, now: int)
    requires s.Sound(net) && s.TimesOk() && id in s.collisions
    ensures ResolveOne(net, s, id, now).TimesOk() && ResolveOne(net, s, id, now).collisions >= s.collisions - {id}
  {
    if Judge(net, s, id, now).Swap? {
      SwapIsLate(net, s, id, now);
      GoodKeeps(net, s, s.info[id].addr, false, now);
      GoodTimes(net, s, s.info[id].addr, false, now);
    }
  }

  /** Resolving collisions keeps the times possible at every reading of the clock. */
  lemma {:induction false} ResolveFromTimes(net: Net, s: State, pending: set<int>, now: int)
    requires s.Sound(net) && s.TimesOk() && pending <= s.collisions
    ensures ResolveFrom(net, s, pending, now).TimesOk()
    decreases pending
  {
    if pending != {} {
      var m := Min(pending);
      ResolveOneKeeps(net, s, m, now);
      ResolveOneTimes(net, s, m, now);
      ResolveFromTimes(net, ResolveOne(net, s, m, now), pending - {m}, now);
    }
  }
}
