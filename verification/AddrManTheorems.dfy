/**
 The main results about the address manager: what holds after every run, and what the
 two table-changing operations do to the addresses it knows.
 */
module AddrManTheorems {
  import opened AddrManState
  import opened AddrManOps
  import opened AddrManSteps
  import opened AddrManProof
  import opened AddrManRuns
  import opened AddrManTimes
  import opened IntSets

  datatype Op =
    | AddOp(a: Address, source: NetAddr, penalty: int, now: int, draw: nat -> nat)
    | GoodOp(addr: Service, testBeforeEvict: bool, time: int)
    | AttemptOp(addr: Service, countFailure: bool, time: int)
    | ConnectedOp(addr: Service, time: int)
    | SetServicesOp(addr: Service, services: bv64)
    | GetAddrOp(now: int, draws: nat -> nat)
    | ResolveOp(now: int)
    | SelectOp(choice: int)

  ghost function Apply(net: Net, s: State, op: Op): State {
    match op
    case AddOp(a, source, penalty, now, draw) => Add(net, s, a, source, penalty, now, draw).state
    case GoodOp(addr, test, time) => Good(net, s, addr, test, time)
    case AttemptOp(addr, count, time) => Attempt(s, addr, count, time)
    case ConnectedOp(addr, time) => Connected(s, addr, time)
    case SetServicesOp(addr, services) => SetServices(s, addr, services)
    case GetAddrOp(now, draws) => GetAddr(s, now, draws).state
    case ResolveOp(now) => ResolveCollisions(net, s, now)
    case SelectOp(choice) => SelectTriedCollision(net, s, choice).state
  }

  ghost function Run(net: Net, s: State, ops: seq<Op>): State
    decreases |ops|
  {
    if ops == [] then s else Run(net, Apply(net, s, ops[0]), ops[1..])
  }

  lemma ApplyKeeps(net: Net, s: State, op: Op)
    requires s.Sound(net)
    ensures Fine(net, s, Apply(net, s, op))
  {
    match op
    case AddOp(a, source, penalty, now, draw) => AddKeeps(net, s, a, source, penalty, now, draw);
    case GoodOp(addr, test, time) => GoodKeeps(net, s, addr, test, time);
    case AttemptOp(addr, count, time) => AttemptKeeps(net, s, addr, count, time);
    case ConnectedOp(addr, time) => ConnectedKeeps(net, s, addr, time);
    case SetServicesOp(addr, services) => SetServicesKeeps(net, s, addr, services);
    case GetAddrOp(now, draws) => GetAddrKeeps(net, s, now, draws);
    case ResolveOp(now) => ResolveFromKeeps(net, s, s.collisions, now);
    case SelectOp(choice) => SelectKeeps(net, s, choice);
  }

  /** Exactly when an operation leaves possible times: only reports about known services can fail to. */
  predicate Timely(net: Net, s: State, op: Op) {
    match op
    case GoodOp(addr, test, time) => GoodTimely(net, s, addr, test, time)
    case AttemptOp(addr, _, time) => Known(s, addr) ==> time >= 0
    case _ => true
  }

  /** The whole invariant survives an operation if and only if the operation is timely. */
  lemma ApplyExactly(net: Net, s: State, op: Op)
    requires s.Inv(net)
    ensures Apply(net, s, op).Inv(net) <==> Timely(net, s, op)
  {
    ApplyKeeps(net, s, op);
    match op
    case AddOp(a, source, penalty, now, draw) => AddTimes(net, s, a, source, penalty, now, draw);
    case GoodOp(addr, test, time) => GoodTimes(net, s, addr, test, time);
    case AttemptOp(addr, count, time) => AttemptTimes(net, s, addr, count, time);
    case ConnectedOp(addr, time) => ConnectedTimes(s, addr, time);
    case SetServicesOp(addr, services) => SetServicesTimes(s, addr, services);
    case GetAddrOp(now, draws) => GetAddrTimes(net, s, now, draws);
    case ResolveOp(now) => ResolveFromTimes(net, s, s.collisions, now);
    case SelectOp(choice) => SelectKeeps(net, s, choice);
  }

  /**
   From any sound state every run stays sound, never reuses an id and never empties a tried
   slot, whatever the clock says.
   */
  lemma {:induction false} RunKeeps(net: Net, s: State, ops: seq<Op>)
    requires s.Sound(net)
    ensures Run(net, s, ops).Sound(net) && Evolves(s, Run(net, s, ops))
    decreases |ops|
  {
    if ops != [] {
      ApplyKeeps(net, s, ops[0]);
      RunKeeps(net, Apply(net, s, ops[0]), ops[1..]);
      EvolvesTrans(s, Apply(net, s, ops[0]), Run(net, s, ops));
    }
  }

  /** A clock that never runs before its origin makes every operation timely. */
  predicate Clocked(op: Op) {
    match op
    case GoodOp(_, _, time) => time > 0
    case AttemptOp(_, _, time) => time >= 0
    case _ => true
  }

  lemma {:induction false} ClockedRunKeeps(net: Net, s: State, ops: seq<Op>)
    requires s.Inv(net) && forall op :: op in ops ==> Clocked(op)
    ensures Run(net, s, ops).Inv(net)
    decreases |ops|
  {
    if ops != [] {
      assert Clocked(ops[0]);
      ApplyExactly(net, s, ops[0]);
      ClockedRunKeeps(net, Apply(net, s, ops[0]), ops[1..]);
    }
  }

  /** The size the manager reports is the number of its tried and new entries. */
  lemma SizeIsExact(net: Net, s: State)
    requires s.Structured(net)
    ensures |s.random| == s.nTried + s.nNew
  {
    forall x
      ensures x in s.info.Keys <==> x in s.random
    {
      if x in s.info.Keys { assert s.random[s.info[x].randomPos] == x; }
    }
    forall i, j | 0 <= i < j < |s.random|
      ensures s.random[i] != s.random[j]
    {
      assert s.info[s.random[i]].randomPos == i;
    }
    DistinctSize(s.random, s.info.Keys);
    assert s.info.Keys == s.NewIds() + s.TriedIds();
  }

  /**
   The theorem: after any run of a manager that started empty, indexes, tables and counters
   agree, whatever the clock said.
   */
  lemma EveryRunIsSound(net: Net, key: Key, ops: seq<Op>)
    ensures var s := Run(net, Empty(key), ops);
      && s.Sound(net)
      && s.key == key
      && |s.random| == s.nTried + s.nNew
      && (forall id :: id in s.info ==> if s.info[id].inTried then s.info[id].refCount == 0
        else 1 <= s.info[id].refCount <= 8)
  {
    var s := Run(net, Empty(key), ops);
    EmptyIsFine(net, key);
    RunKeeps(net, Empty(key), ops);
    SizeIsExact(net, s);
    forall id | id in s.info && s.info[id].inTried
      ensures s.info[id].refCount == 0
    {
      assert s.Buckets(net, s.info[id].addr, id) == {};
    }
  }

  /** With a clock that never runs before its origin, it passes its whole consistency check. */
  lemma EveryRunIsConsistent(net: Net, key: Key, ops: seq<Op>)
    requires forall op :: op in ops ==> Clocked(op)
    ensures Run(net, Empty(key), ops).Inv(net)
    ensures Run(net, Empty(key), ops).PassesCheck(net) <==> key != NULL_KEY
  {
    EmptyIsFine(net, key);
    ClockedRunKeeps(net, Empty(key), ops);
    EveryRunIsSound(net, key, ops);
  }

  /** An address announced to an empty manager is known. */
  lemma FirstIsKnown(net: Net, key: Key, a: Address, source: NetAddr, penalty: int, now: int, draw: nat -> nat)
    requires net.isRoutable(a.service.ip)
    ensures Add(net, Empty(key), a, source, penalty, now, draw).state.Inv(net)
    ensures Known(Add(net, Empty(key), a, source, penalty, now, draw).state, a.service)
  {
    EmptyIsFine(net, key);
    ApplyExactly(net, Empty(key), AddOp(a, source, penalty, now, draw));
    AddLearns(net, Empty(key), a, source, penalty, now, draw);
  }

  /** An attempt, or a success, reported at an impossible time breaks what the consistency check looks for. */
  lemma ImpossibleTimes(net: Net, key: Key, a: Address, source: NetAddr, penalty: int, now: int, draw: nat -> nat)
    requires net.isRoutable(a.service.ip)
    ensures var add := AddOp(a, source, penalty, now, draw);
      && !Run(net, Empty(key), [add, AttemptOp(a.service, false, -1)]).Consistent(net)
      && !Run(net, Empty(key), [add, GoodOp(a.service, false, 0)]).Consistent(net)
  {
    var add := AddOp(a, source, penalty, now, draw);
    var s := Apply(net, Empty(key), add);
    FirstIsKnown(net, key, a, source, penalty, now, draw);
    forall op | op in {AttemptOp(a.service, false, -1), GoodOp(a.service, false, 0)}
      ensures !Run(net, Empty(key), [add, op]).Consistent(net)
    {
      assert [add, op][1..] == [op] && [op][1..] == [];
      assert Run(net, Empty(key), [add, op]) == Run(net, s, [op]) == Apply(net, s, op);
      ApplyExactly(net, s, op);
      ApplyKeeps(net, s, op);
    }
  }

  // ---- what Good achieves

  /** After a successful connection without test-before-evict the address is in the tried table. */
  lemma GoodMakesTried(net: Net, s: State, addr: Service, time: int)
    requires s.Sound(net) && Known(s, addr)
    ensures var t := Good(net, s, addr, false, time); var id := s.addr[addr.ip];
      && id in t.info && t.info[id].inTried
      && t.TriedSlot(net, addr) in t.triedTab && t.triedTab[t.TriedSlot(net, addr)] == id
  {
    var t := GoodTouches(net, s, addr, false, time);
    PromotedIsTried(net, t, s.addr[addr.ip]);
  }

  lemma PromotedIsTried(net: Net, s: State, id: int)
    requires s.Sound(net) && id in s.info
    ensures var t := Promote(net, s, id, false); var k := s.TriedSlot(net, s.info[id].addr);
      && id in t.info && t.info[id].inTried && t.info[id].addr == s.info[id].addr
      && t.key == s.key && k in t.triedTab && t.triedTab[k] == id
  {
    if !s.info[id].inTried {
      assert s.info[id].refCount == |s.Buckets(net, s.info[id].addr, id)|;
      MakeTriedKeeps(net, s, id);
      var t := MakeTried(net, s, id);
      assert t.triedTab[s.TriedSlot(net, s.info[id].addr)] == id;
    }
  }

  /** t is s after id, just seen alive, met the tried slot k under test-before-evict. */
  ghost predicate TestedBeforeEvict(s: State, t: State, id: int, k: Slot) {
    if k in s.triedTab then
      && t.triedTab == s.triedTab && t.newTab == s.newTab
      && t.collisions == (if |s.collisions| < MAX_TRIED_COLLISIONS then s.collisions + {id} else s.collisions)
    else t.triedTab == s.triedTab[k := id] && t.collisions == s.collisions
  }

  lemma PromoteTests(net: Net, s: State, id: int)
    requires s.Sound(net) && id in s.info && !s.info[id].inTried
    ensures TestedBeforeEvict(s, Promote(net, s, id, true), id, s.TriedSlot(net, s.info[id].addr))
  {
    assert s.info[id].refCount == |s.Buckets(net, s.info[id].addr, id)|;
    if s.TriedSlot(net, s.info[id].addr) !in s.triedTab {
      MakeTriedKeeps(net, s, id);
    }
  }

  /** With test-before-evict, an occupied tried slot is left alone and the newcomer waits, if there is room. */
  lemma GoodTestsBeforeEvict(net: Net, s: State, addr: Service, time: int)
    requires s.Sound(net) && Known(s, addr) && !s.info[s.addr[addr.ip]].inTried
    ensures TestedBeforeEvict(s, Good(net, s, addr, true, time), s.addr[addr.ip], s.TriedSlot(net, addr))
  {
    var t := GoodTouches(net, s, addr, true, time);
    PromoteTests(net, t, s.addr[addr.ip]);
  }

  // ---- what Add achieves and costs

  /** The slot an announcement of the address by this source competes for. */
  function AddSlot(net: Net, s: State, a: Service, source: NetAddr): Slot {
    s.NewSlot(net, a, net.newBucket(s.key, a.ip, source))
  }

  /** Slot k is free, or its occupant is bad or has other references. */
  ghost predicate HasRoom(s: State, k: Slot, now: int) {
    k in s.newTab ==>
      var id := s.newTab[k];
      id in s.info && (IsTerrible(s.info[id].stats, now) || s.info[id].refCount > 1)
  }

  /** A newly announced address is known afterwards exactly when there was room at its slot. */
  lemma AddLearns(net: Net, s: State, a: Address, source: NetAddr, penalty: int, now: int, draw: nat -> nat)
    requires s.Sound(net) && net.isRoutable(a.service.ip) && a.service.ip !in s.addr
    ensures a.service.ip in Add(net, s, a, source, penalty, now, draw).state.addr
      <==> HasRoom(s, AddSlot(net, s, a.service, source), now)
  {
    var p := if a.service.ip == source then 0 else penalty;
    CreateFine(net, s, a, source, p);
    NewcomerKept(net, Announced(s, a, source, p), s.idCount, source, now);
    AnnouncedRoom(net, s, a, source, p, AddSlot(net, s, a.service, source), now);
  }

  lemma AnnouncedRoom(net: Net, s: State, a: Address, source: NetAddr, penalty: int, k: Slot, now: int)
    requires s.AddrIndexed() && s.NewSlotsOk(net)
    ensures HasRoom(s, k, now) <==> HasRoom(Announced(s, a, source, penalty), k, now)
  {
    var u := Announced(s, a, source, penalty);
    if k in s.newTab {
      var id := s.newTab[k];
      assert u.info[id] == s.info[id];
    }
  }

  lemma NewcomerKept(net: Net, u: State, id: int, source: NetAddr, now: int)
    requires u.Weak(net, {id}, 0, 0) && id in u.info && !u.info[id].inTried && u.info[id].refCount == 0
    ensures var t := Insert(net, u, id, source, now); var k := AddSlot(net, u, u.info[id].addr, source);
      && (u.info[id].addr.ip in t.addr <==> HasRoom(u, k, now))
  {
    var k := AddSlot(net, u, u.info[id].addr, source);
    NotHeld(net, u, id);
    InsertKeeps(net, u, id, source, now);
    var t := Insert(net, u, id, source, now);
    if k !in u.newTab || CanReplace(u.info[u.newTab[k]], u.info[id], now) {
      InsertAtKeeps(net, u, k, id);
      assert t.info[id].addr == u.info[id].addr;
      assert t.info[id].addr.ip in t.addr;
    } else {
      DeleteFine(net, u, id);
      assert t == Delete(u, id);
    }
  }
}
