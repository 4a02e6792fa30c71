/**
 Test before evict. A pending newcomer takes a tried slot only from an occupant that was
 tested and failed; what becomes of every slot and of every pending newcomer.
 */
module AddrManCollisions {
  import opened AddrManState
  import opened AddrManOps
  import opened AddrManProof
  import opened AddrManRuns
  import opened AddrManTimes
  import opened IntSets

  /** The entry was reached within the last four hours. */
  predicate Proven(i: Stats, now: int) { now - i.lastSuccess < 14400 }

  /** It was not, and an attempt more than a minute and less than four hours ago got no answer. */
  predicate Failed(i: Stats, now: int) { !Proven(i, now) && 60 < now - i.lastTry < 14400 }

  /** It was not, and still has to be tested, or to answer. */
  predicate Untested(i: Stats, now: int) { !Proven(i, now) && !Failed(i, now) }

  /** id is a known entry with a valid address, and k is its tried slot. */
  ghost predicate Contends(net: Net, s: State, id: int, k: Slot) {
    id in s.info && net.isValid(s.info[id].addr.ip) && s.TriedSlot(net, s.info[id].addr) == k
  }

  // ---- one newcomer

  /** id takes slot k: it succeeded just now and is no longer pending; no other entry has other statistics. */
  ghost predicate Takes(s: State, t: State, id: int, k: Slot, now: int) {
    && t.triedTab == s.triedTab[k := id] && t.collisions == s.collisions - {id} && t.idCount == s.idCount
    && id in t.info && t.info[id].inTried && t.info[id].stats.lastSuccess == now
    && t.info.Keys <= s.info.Keys
    && (forall x :: x in t.info && x != id ==> t.info[x].stats == s.info[x].stats)
  }

  /** What the judgement of a pending newcomer does, by the state of its rival. */
  ghost predicate Judged(net: Net, s: State, t: State, id: int, now: int) {
    if id !in s.info || !net.isValid(s.info[id].addr.ip) then t == s.(collisions := s.collisions - {id}) else
    var k := s.TriedSlot(net, s.info[id].addr);
    k in s.triedTab && s.triedTab[k] in s.info &&
    var rival := s.info[s.triedTab[k]].stats;
    && (Proven(rival, now) ==> t == s.(collisions := s.collisions - {id}))
    && (Failed(rival, now) ==> Takes(s, t, id, k, now))
    && (Untested(rival, now) ==> t == s)
  }

  lemma PromotedTakes(net: Net, s: State, id: int)
    requires s.Sound(net) && id in s.info
    ensures var t := Promote(net, s, id, false);
      && Narrowed(s, t) && t.triedTab == s.triedTab[s.TriedSlot(net, s.info[id].addr) := id]
      && id in t.info && t.info[id].inTried
  {
    PromotedEntry(net, s, id, false);
    var k := s.TriedSlot(net, s.info[id].addr);
    if s.info[id].inTried {
      assert s.triedTab == s.triedTab[k := id];
    } else {
      assert s.info[id].refCount == |s.Buckets(net, s.info[id].addr, id)|;
      MakeTriedKeeps(net, s, id);
    }
  }

  lemma TouchedTakes(s: State, t: State, u: State, id: int, k: Slot, now: int)
    requires id in s.info && t == Touch(s.(lastGood := now), id, now)
    requires Narrowed(t, u) && u.triedTab == t.triedTab[k := id] && id in u.info && u.info[id].inTried
    ensures Takes(s, u.(collisions := u.collisions - {id}), id, k, now)
  {
    forall x | x in u.info
      ensures x in s.info
    {
      assert x in t.info;
    }
  }

  lemma GoodTakes(net: Net, s: State, id: int, now: int)
    requires s.Sound(net) && id in s.info
    ensures var t := Good(net, s, s.info[id].addr, false, now);
      Takes(s, t.(collisions := t.collisions - {id}), id, s.TriedSlot(net, s.info[id].addr), now)
  {
    var addr := s.info[id].addr;
    assert s.addr[addr.ip] == id;
    var t := GoodTouches(net, s, addr, false, now);
    PromotedTakes(net, t, id);
    TouchedTakes(s, t, Promote(net, t, id, false), id, s.TriedSlot(net, addr), now);
  }

  lemma ResolveOneJudges(net: Net, s: State, id: int, now: int)
    requires s.Sound(net) && id in s.collisions
    ensures Judged(net, s, ResolveOne(net, s, id, now), id, now)
  {
    if id in s.info && net.isValid(s.info[id].addr.ip) {
      GoodTakes(net, s, id, now);
      var k := s.TriedSlot(net, s.info[id].addr);
      assert k in s.triedTab && s.triedTab[k] in s.info;
    }
  }

  // ---- all of them

  /** Slot k still has its occupant of s, untouched; or that one failed and a judged newcomer has the slot. */
  ghost predicate SlotSettled(s: State, u: State, k: Slot, judged: set<int>, now: int) {
    && k in s.triedTab && s.triedTab[k] in s.info && k in u.triedTab && u.triedTab[k] in u.info
    && if u.triedTab[k] == s.triedTab[k] && u.info[u.triedTab[k]].stats == s.info[s.triedTab[k]].stats then true
       else Overtaken(s, u, k, judged, now)
  }

  ghost predicate Overtaken(s: State, u: State, k: Slot, judged: set<int>, now: int) {
    && k in s.triedTab && s.triedTab[k] in s.info && Failed(s.info[s.triedTab[k]].stats, now)
    && k in u.triedTab && u.triedTab[k] in u.info
    && u.triedTab[k] in judged && u.info[u.triedTab[k]].stats.lastSuccess == now
  }

  /** What the rival of the judged newcomer id decides, if id is still known: whether it waits, and who has its slot. */
  ghost predicate NewcomerSettled(net: Net, s: State, u: State, id: int, judged: set<int>, now: int) {
    id in s.info &&
    if !net.isValid(s.info[id].addr.ip) then id !in u.collisions else
    var k := s.TriedSlot(net, s.info[id].addr);
    k in s.triedTab && s.triedTab[k] in s.info &&
    var rival := s.info[s.triedTab[k]].stats;
    && (id in u.collisions <==> Untested(rival, now))
    && (Failed(rival, now) ==> Overtaken(s, u, k, judged, now))
  }

  ghost predicate SlotsSettled(s: State, u: State, judged: set<int>, now: int) {
    && u.triedTab.Keys == s.triedTab.Keys
    && (forall k :: k in s.triedTab ==> SlotSettled(s, u, k, judged, now))
  }

  ghost predicate NewcomersSettled(net: Net, s: State, u: State, judged: set<int>, now: int) {
    && judged <= s.collisions && s.collisions - judged <= u.collisions <= s.collisions
    && (forall id :: id in judged && id in u.info ==> NewcomerSettled(net, s, u, id, judged, now))
  }

  /** u is s after the newcomers in judged were judged. */
  ghost predicate Settling(net: Net, s: State, u: State, judged: set<int>, now: int) {
    && u.Sound(net) && Evolves(s, u) && u.idCount == s.idCount
    && SlotsSettled(s, u, judged, now) && NewcomersSettled(net, s, u, judged, now)
  }

  /** A slot is settled by the judgement of any newcomer. */
  lemma SlotStep(net: Net, s: State, u: State, v: State, judged: set<int>, id: int, k: Slot, now: int)
    requires u.TriedTableOk(net) && v.TriedTableOk(net) && Judged(net, u, v, id, now)
    requires SlotSettled(s, u, k, judged, now)
    ensures SlotSettled(s, v, k, judged + {id}, now)
    ensures Overtaken(s, u, k, judged, now) ==> Overtaken(s, v, k, judged + {id}, now)
  {
  }

  lemma SlotsStep(net: Net, s: State, u: State, v: State, judged: set<int>, id: int, now: int)
    requires u.TriedTableOk(net) && v.TriedTableOk(net) && Judged(net, u, v, id, now)
    requires SlotsSettled(s, u, judged, now)
    ensures SlotsSettled(s, v, judged + {id}, now)
  {
    forall k | k in s.triedTab
      ensures SlotSettled(s, v, k, judged + {id}, now)
    {
      SlotStep(net, s, u, v, judged, id, k, now);
    }
  }

  /** A newcomer is settled by its own judgement. */
  lemma OwnStep(net: Net, s: State, u: State, v: State, judged: set<int>, id: int, now: int)
    requires u.TriedTableOk(net) && v.TriedTableOk(net) && Judged(net, u, v, id, now) && id in u.collisions
    requires id in s.info && id in u.info && u.info[id].addr == s.info[id].addr && u.key == s.key
    requires SlotSettled(s, u, s.TriedSlot(net, s.info[id].addr), judged, now)
    ensures NewcomerSettled(net, s, v, id, judged + {id}, now)
  {
    SlotStep(net, s, u, v, judged, id, s.TriedSlot(net, s.info[id].addr), now);
  }

  /** It stays settled by those of others. */
  lemma OtherStep(net: Net, s: State, u: State, v: State, judged: set<int>, id: int, x: int, now: int)
    requires u.TriedTableOk(net) && v.TriedTableOk(net) && Judged(net, u, v, id, now)
    requires x != id && NewcomerSettled(net, s, u, x, judged, now)
    requires SlotSettled(s, u, s.TriedSlot(net, s.info[x].addr), judged, now)
    ensures NewcomerSettled(net, s, v, x, judged + {id}, now)
  {
    SlotStep(net, s, u, v, judged, id, s.TriedSlot(net, s.info[x].addr), now);
    assert x in v.collisions <==> x in u.collisions;
  }

  /** The tried slot of a pending newcomer, at the address it has in s, is filled. */
  lemma NewcomerSlot(net: Net, s: State, u: State, judged: set<int>, x: int, now: int)
    requires s.CollisionsOk(net) && Evolves(s, u) && u.idCount == s.idCount && u.AddrIndexed()
    requires SlotsSettled(s, u, judged, now) && x in s.collisions && x in u.info
    ensures x in s.info && u.info[x].addr == s.info[x].addr
    ensures SlotSettled(s, u, s.TriedSlot(net, s.info[x].addr), judged, now)
  {
  }

  lemma NewcomerStep(net: Net, s: State, u: State, v: State, judged: set<int>, id: int, x: int, now: int)
    requires u.TriedTableOk(net) && v.TriedTableOk(net) && Judged(net, u, v, id, now) && u.key == s.key
    requires x in s.info && x in u.info && u.info[x].addr == s.info[x].addr
    requires SlotSettled(s, u, s.TriedSlot(net, s.info[x].addr), judged, now)
    requires if x == id then id in u.collisions else NewcomerSettled(net, s, u, x, judged, now)
    ensures NewcomerSettled(net, s, v, x, judged + {id}, now)
  {
    if x == id {
      OwnStep(net, s, u, v, judged, id, now);
    } else {
      OtherStep(net, s, u, v, judged, id, x, now);
    }
  }

  lemma NewcomersStep(net: Net, s: State, u: State, v: State, judged: set<int>, id: int, now: int)
    requires s.CollisionsOk(net) && Evolves(s, u) && u.idCount == s.idCount && u.AddrIndexed()
    requires SlotsSettled(s, u, judged, now) && NewcomersSettled(net, s, u, judged, now)
    requires u.TriedTableOk(net) && v.TriedTableOk(net) && Judged(net, u, v, id, now)
    requires id in s.collisions && id !in judged
    ensures NewcomersSettled(net, s, v, judged + {id}, now)
  {
    JudgedFrame(net, u, v, id, now);
    forall x | x in judged + {id} && x in v.info
      ensures NewcomerSettled(net, s, v, x, judged + {id}, now)
    {
      NewcomerSlot(net, s, u, judged, x, now);
      NewcomerStep(net, s, u, v, judged, id, x, now);
    }
  }

  lemma JudgedFrame(net: Net, u: State, v: State, id: int, now: int)
    requires Judged(net, u, v, id, now)
    ensures v.idCount == u.idCount && v.info.Keys <= u.info.Keys
    ensures v.collisions == u.collisions || v.collisions == u.collisions - {id}
  {
  }

  lemma SettlingStep(net: Net, s: State, u: State, v: State, judged: set<int>, id: int, now: int)
    requires s.Sound(net) && Settling(net, s, u, judged, now) && id in s.collisions && id !in judged
    requires Judged(net, u, v, id, now) && Fine(net, u, v)
    ensures Settling(net, s, v, judged + {id}, now)
  {
    EvolvesTrans(s, u, v);
    JudgedFrame(net, u, v, id, now);
    SlotsStep(net, s, u, v, judged, id, now);
    NewcomersStep(net, s, u, v, judged, id, now);
  }

  lemma {:induction false} ResolveFromSettles(net: Net, s: State, u: State, judged: set<int>, pending: set<int>,
                                              now: int)
    requires s.Sound(net) && Settling(net, s, u, judged, now) && judged + pending == s.collisions && judged !! pending
    ensures Settling(net, s, ResolveFrom(net, u, pending, now), s.collisions, now)
    decreases pending
  {
    if pending == {} {
      assert judged == s.collisions;
    } else {
      var m := Min(pending);
      ResolveOneSettles(net, s, u, judged, m, now);
      ResolveFromSettles(net, s, ResolveOne(net, u, m, now), judged + {m}, pending - {m}, now);
    }
  }

  lemma ResolveOneSettles(net: Net, s: State, u: State, judged: set<int>, id: int, now: int)
    requires s.Sound(net) && Settling(net, s, u, judged, now) && id in s.collisions && id !in judged
    ensures Settling(net, s, ResolveOne(net, u, id, now), judged + {id}, now)
  {
    ResolveOneKeeps(net, u, id, now);
    ResolveOneJudges(net, u, id, now);
    SettlingStep(net, s, u, ResolveOne(net, u, id, now), judged, id, now);
  }

  /** t is s after every pending newcomer was judged. */
  ghost predicate Settled(net: Net, s: State, t: State, now: int) { Settling(net, s, t, s.collisions, now) }

  /** Resolving settles every tried slot and every pending newcomer. */
  lemma ResolveSettles(net: Net, s: State, now: int)
    requires s.Sound(net)
    ensures Settled(net, s, ResolveCollisions(net, s, now), now)
  {
    ResolveFromSettles(net, s, s, {}, s.collisions, now);
  }

  /**
   Only an occupant that was not reached for four hours, and did not answer an attempt made more than a
   minute and less than four hours ago, loses its slot; and it loses it to a pending newcomer.
   */
  lemma OnlyFailedAreEvicted(net: Net, s: State, now: int, k: Slot)
    requires s.Sound(net) && k in s.triedTab
    ensures var t := ResolveCollisions(net, s, now); var occupant := s.info[s.triedTab[k]].stats;
      && k in t.triedTab
      && (t.triedTab[k] != s.triedTab[k] ==>
            && now - occupant.lastSuccess >= 4 * 3600 && 60 < now - occupant.lastTry < 4 * 3600
            && t.triedTab[k] in s.collisions)
  {
    ResolveSettles(net, s, now);
  }

  /** What becomes of a single pending newcomer that is known, valid and not tried, and of its rival. */
  lemma SingleCollision(net: Net, s: State, id: int, now: int)
    requires s.Sound(net) && s.collisions == {id}
    requires id in s.info && net.isValid(s.info[id].addr.ip) && !s.info[id].inTried
    ensures var t := ResolveCollisions(net, s, now); var k := s.TriedSlot(net, s.info[id].addr);
      k in s.triedTab &&
      var rival := s.info[s.triedTab[k]].stats;
      if now - rival.lastSuccess < 4 * 3600 then t == s.(collisions := {})
      else if 60 < now - rival.lastTry < 4 * 3600 then
        && t.triedTab == s.triedTab[k := id] && id in t.info && t.info[id].inTried && t.collisions == {}
      else t == s
  {
    var t := ResolveOne(net, s, id, now);
    assert Min({id}) == id;
    assert ResolveFrom(net, t, {id} - {id}, now) == t;
    ResolveOneJudges(net, s, id, now);
    assert {id} - {id} == {};
  }

  // ---- the test as the program carries it out

  /** A single newcomer waits for the slot of a tried entry that may be asked whether it still answers. */
  ghost predicate Waits(net: Net, s: State, id: int) {
    s.Sound(net) && s.collisions == {id} && id in s.info && net.isValid(s.info[id].addr.ip) && !s.info[id].inTried
  }

  /** The entry that is picked for the test is the occupant of the newcomer's slot, and still known. */
  lemma SelectedIsRival(net: Net, s: State, id: int)
    requires Waits(net, s, id)
    ensures var r := SelectTriedCollision(net, s, id); var k := s.TriedSlot(net, s.info[id].addr);
      && r.state == s && k in s.triedTab && s.triedTab[k] in s.info && r.info == s.info[s.triedTab[k]]
      && r.info.inTried && Known(s, r.info.addr) && s.addr[r.info.addr.ip] == s.triedTab[k] != id
      && s.TriedSlot(net, r.info.addr) == k
  {
    var k := s.TriedSlot(net, s.info[id].addr);
    var rival := s.triedTab[k];
    assert rival in s.info && s.info[rival].inTried;
    assert s.addr[s.info[rival].addr.ip] == rival;
  }

  /** An attempt on the selected entry that is not answered costs it its slot when collisions are resolved in time. */
  lemma TestFails(net: Net, s: State, id: int, countFailure: bool, time: int, now: int)
    requires Waits(net, s, id)
    requires now - SelectTriedCollision(net, s, id).info.stats.lastSuccess >= 4 * 3600
    requires 60 < now - time < 4 * 3600
    ensures var r := SelectTriedCollision(net, s, id);
      var t := ResolveCollisions(net, Attempt(r.state, r.info.addr, countFailure, time), now);
      && t.triedTab == s.triedTab[s.TriedSlot(net, s.info[id].addr) := id]
      && id in t.info && t.info[id].inTried && t.collisions == {}
  {
    var a := SelectTriedCollision(net, s, id).info.addr;
    SelectedIsRival(net, s, id);
    AttemptKeeps(net, s, a, countFailure, time);
    SingleCollision(net, Attempt(s, a, countFailure, time), id, now);
  }

  /** If the selected entry answers, it keeps its slot and the newcomer no longer waits. */
  lemma TestSucceeds(net: Net, s: State, id: int, testBeforeEvict: bool, time: int, now: int)
    requires Waits(net, s, id) && now - time < 4 * 3600
    ensures var r := SelectTriedCollision(net, s, id);
      var t := ResolveCollisions(net, Good(net, r.state, r.info.addr, testBeforeEvict, time), now);
      t.triedTab == s.triedTab && t.newTab == s.newTab && t.collisions == {}
  {
    var a := SelectTriedCollision(net, s, id).info.addr;
    SelectedIsRival(net, s, id);
    var t := GoodTouches(net, s, a, testBeforeEvict, time);
    SingleCollision(net, t, id, now);
  }

  // ---- where the loser goes

  /** e is in the new table, at the slot that its own source selects. */
  ghost predicate AtHome(net: Net, s: State, e: int) {
    e in s.info && !s.info[e].inTried &&
    var i := s.info[e];
    var k := s.NewSlot(net, i.addr, net.newBucket(s.key, i.addr.ip, i.source));
    k in s.newTab && s.newTab[k] == e
  }

  lemma EvictGoesHome(net: Net, s: State, k: Slot, id: int)
    requires s.Weak(net, {id}, 1, 0) && k in s.triedTab
    requires id in s.info && !s.info[id].inTried && s.info[id].refCount == 0
    ensures s.triedTab[k] != id && AtHome(net, Evict(net, s, k), s.triedTab[k])
  {
    var e := s.triedTab[k];
    DemotedIsHomeless(net, s, k, id);
    DemoteKeeps(net, s, k, {id}, 1, 0);
    MakeRoom(net, Demote(s, k, e), HomeSlot(net, s, s.info[e]), e, {id} + {e}, 2, 0);
    ClearKeepsSource(net, Demote(s, k, e), HomeSlot(net, s, s.info[e]), e);
  }

  lemma ClearKeepsSource(net: Net, d: State, home: Slot, e: int)
    requires Homeless(net, d, home, e) && d.NewSlotsOk(net) && d.RefCountsOk(net)
    requires ClearFrame(d, ClearNew(d, home), home)
    ensures var c := ClearNew(d, home); e in c.info && c.info[e].source == d.info[e].source && c.key == d.key
  {
    AfterClear(net, d, ClearNew(d, home), home, e);
  }

  lemma MakeTriedSendsHome(net: Net, s: State, id: int)
    requires s.Structured(net) && id in s.info && !s.info[id].inTried
    requires s.TriedSlot(net, s.info[id].addr) in s.triedTab
    ensures var k := s.TriedSlot(net, s.info[id].addr);
      s.triedTab[k] != id && AtHome(net, MakeTried(net, s, id), s.triedTab[k])
  {
    StripKeeps(net, s, id);
    EvictGoesHome(net, Strip(net, s, id), s.TriedSlot(net, s.info[id].addr), id);
  }

  /** When a success evicts a tried entry, that entry is new again, in its home slot. */
  lemma GoodSendsHome(net: Net, s: State, addr: Service, time: int)
    requires s.Sound(net) && Known(s, addr) && !s.info[s.addr[addr.ip]].inTried
    requires s.TriedSlot(net, addr) in s.triedTab
    ensures AtHome(net, Good(net, s, addr, false, time), s.triedTab[s.TriedSlot(net, addr)])
  {
    var id := s.addr[addr.ip];
    var t := GoodTouches(net, s, addr, false, time);
    assert t.info[id].refCount == |t.Buckets(net, t.info[id].addr, id)|;
    MakeTriedSendsHome(net, t, id);
  }
}
