/**
 The operations of the address manager as functions on its state: what each method of
 CAddrMan leaves behind. Random choices and the clock are parameters.
 */
module AddrManOps {
  import opened AddrManState
  import opened IntSets
  import opened Powers
  import Common

  function WithInfo(s: State, id: int, i: Info): State { s.(info := s.info[id := i]) }

  function DeleteUnreferenced(s: State, id: int): State { if CanDelete(s, id) then Delete(s, id) else s }

  function ClearNew(s: State, k: Slot): State {
    if k in s.newTab && s.newTab[k] in s.info then DeleteUnreferenced(Unref(s, k), s.newTab[k]) else s
  }

  // ---- MakeTried, stage by stage

  ghost function SlotsOf(net: Net, s: State, a: Service, held: set<int>): set<Slot>
    requires forall b :: b in held ==> 0 <= b
  {
    set b | b in held :: s.NewSlot(net, a, b)
  }

  /** Take id out of every new bucket. */
  ghost function Strip(net: Net, s: State, id: int): State
    requires id in s.info
  {
    var held := s.Buckets(net, s.info[id].addr, id);
    s.(newTab := s.newTab - SlotsOf(net, s, s.info[id].addr, held),
       info := s.info[id := s.info[id].(refCount := s.info[id].refCount - |held|)],
       nNew := s.nNew - 1)
  }

  /** The tried entry id leaves its slot k. */
  function Demote(s: State, k: Slot, id: int): State
    requires id in s.info
  {
    s.(info := s.info[id := s.info[id].(inTried := false)], triedTab := s.triedTab - {k}, nTried := s.nTried - 1)
  }

  /** The demoted entry id enters the new table at k. */
  function Settle(s: State, k: Slot, id: int): State
    requires id in s.info
  {
    s.(info := s.info[id := s.info[id].(refCount := 1)], newTab := s.newTab[k := id], nNew := s.nNew + 1)
  }

  /** Enter id into the tried table at k. */
  function Place(s: State, k: Slot, id: int): State
    requires id in s.info
  {
    s.(info := s.info[id := s.info[id].(inTried := true)], triedTab := s.triedTab[k := id], nTried := s.nTried + 1)
  }

  /** Where the entry goes when it falls back to the new table. */
  function HomeSlot(net: Net, s: State, i: Info): Slot {
    s.NewSlot(net, i.addr, net.newBucket(s.key, i.addr.ip, i.source))
  }

  /** The demoted entry id takes its home slot back, whatever is there. */
  function Resettle(s: State, home: Slot, id: int): State {
    if id in ClearNew(s, home).info then Settle(ClearNew(s, home), home, id) else ClearNew(s, home)
  }

  /** Free tried slot k by moving its entry back to the new table. */
  function Evict(net: Net, s: State, k: Slot): State {
    if k !in s.triedTab || s.triedTab[k] !in s.info then s else
    var id := s.triedTab[k];
    Resettle(Demote(s, k, id), HomeSlot(net, s, s.info[id]), id)
  }

  function PlaceIfKnown(s: State, k: Slot, id: int): State { if id in s.info then Place(s, k, id) else s }

  ghost function MakeTried(net: Net, s: State, id: int): State
    requires id in s.info
  {
    var k := s.TriedSlot(net, s.info[id].addr);
    PlaceIfKnown(Evict(net, Strip(net, s, id), k), k, id)
  }

  // ---- the public operations

  /** Record a success at the given time. */
  function Touch(s: State, id: int, time: int): State
    requires id in s.info
  {
    WithInfo(s, id, s.info[id].(stats := s.info[id].stats.(lastSuccess := time, lastTry := time, attempts := 0)))
  }

  function Collide(s: State, id: int): State {
    if |s.collisions| < MAX_TRIED_COLLISIONS then s.(collisions := s.collisions + {id}) else s
  }

  /** Move id from new to tried, or note the collision if that would evict an entry. */
  ghost function Promote(net: Net, s: State, id: int, testBeforeEvict: bool): State
    requires id in s.info
  {
    if s.info[id].inTried || s.Buckets(net, s.info[id].addr, id) == {} then s
    else if testBeforeEvict && s.TriedSlot(net, s.info[id].addr) in s.triedTab then Collide(s, id)
    else MakeTried(net, s, id)
  }

  ghost function Good(net: Net, s0: State, addr: Service, testBeforeEvict: bool, time: int): State {
    var s := s0.(lastGood := time);
    var id := Find(s, addr.ip);
    if id == -1 || id !in s.info || s.info[id].addr != addr then s
    else Promote(net, Touch(s, id, time), id, testBeforeEvict)
  }

  /** Merge a repeated announcement of a into the entry's statistics. */
  function Merge(i: Stats, a: Address, penalty: int, now: int): Stats {
    var interval := if now - a.time < 24 * 60 * 60 then 60 * 60 else 24 * 60 * 60;
    i.(time := if a.time != 0 && (i.time == 0 || i.time < a.time - interval - penalty)
      then Common.Max(0, a.time - penalty) else i.time,
       services := i.services | a.services)
  }

  /** Does a repeated announcement earn the entry another reference? draw(n) is a number drawn below n. */
  predicate WantsRef(i: Info, a: Address, draw: nat -> nat) {
    && !(a.time == 0 || (i.stats.time != 0 && a.time <= i.stats.time))
    && !i.inTried
    && i.refCount != NEW_BUCKETS_PER_ADDRESS
    && (i.refCount <= 0 || draw(Pow(2, i.refCount)) == 0)
  }

  /** Give the entry id a reference in the bucket its source selects, if there is room. */
  function Insert(net: Net, s: State, id: int, source: NetAddr, now: int): State
    requires id in s.info
  {
    var i := s.info[id];
    var k := s.NewSlot(net, i.addr, net.newBucket(s.key, i.addr.ip, source));
    if k in s.newTab && s.newTab[k] == id then s
    else if k !in s.newTab || (s.newTab[k] in s.info && CanReplace(s.info[s.newTab[k]], i, now)) then
      var t := ClearNew(s, k);
      if id in t.info then AddRef(t, k, id) else t
    else if CanDelete(s, id) then Delete(s, id)
    else s
  }

  predicate CanReplace(old_: Info, i: Info, now: int) {
    IsTerrible(old_.stats, now) || (old_.refCount > 1 && i.refCount == 0)
  }

  datatype AddResult = AddResult(state: State, isNew: bool)

  function AddKnown(net: Net, s: State, id: int, a: Address, source: NetAddr, penalty: int, now: int,
                    draw: nat -> nat): State
    requires id in s.info
  {
    var i := s.info[id].(stats := Merge(s.info[id].stats, a, penalty, now));
    if WantsRef(i, a, draw) then Insert(net, WithInfo(s, id, i), id, source, now) else WithInfo(s, id, i)
  }

  /** The created entry id is counted, and its time carries the penalty. */
  function Newcomer(s: State, id: int, penalty: int): State
    requires id in s.info
  {
    var i := s.info[id];
    WithInfo(s, id, i.(stats := i.stats.(time := Common.Max(0, i.stats.time - penalty)))).(nNew := s.nNew + 1)
  }

  function Announced(s: State, a: Address, source: NetAddr, penalty: int): State {
    Newcomer(Create(s, a, source), s.idCount, penalty)
  }

  function AddUnknown(net: Net, s: State, a: Address, source: NetAddr, penalty: int, now: int): State {
    Insert(net, Announced(s, a, source, penalty), s.idCount, source, now)
  }

  function Add(net: Net, s: State, a: Address, source: NetAddr, penalty0: int, now: int, draw: nat -> nat): AddResult {
    if !net.isRoutable(a.service.ip) then AddResult(s, false) else
    var penalty := if a.service.ip == source then 0 else penalty0;
    var id := Find(s, a.service.ip);
    if id != -1 && id in s.info then AddResult(AddKnown(net, s, id, a, source, penalty, now, draw), false)
    else AddResult(AddUnknown(net, s, a, source, penalty, now), true)
  }

  function Attempted(i: Stats, lastGood: int, countFailure: bool, time: int): Stats {
    if countFailure && i.lastCountAttempt < lastGood
      then i.(lastTry := time, lastCountAttempt := time, attempts := i.attempts + 1)
    else i.(lastTry := time)
  }

  function Attempt(s: State, addr: Service, countFailure: bool, time: int): State {
    var id := Find(s, addr.ip);
    if id == -1 || id !in s.info || s.info[id].addr != addr then s else
    WithInfo(s, id, s.info[id].(stats := Attempted(s.info[id].stats, s.lastGood, countFailure, time)))
  }

  function Seen(i: Stats, time: int): Stats { if time - i.time > 20 * 60 then i.(time := time) else i }

  function Connected(s: State, addr: Service, time: int): State {
    var id := Find(s, addr.ip);
    if id == -1 || id !in s.info || s.info[id].addr != addr then s else
    WithInfo(s, id, s.info[id].(stats := Seen(s.info[id].stats, time)))
  }

  function SetServices(s: State, addr: Service, services: bv64): State {
    var id := Find(s, addr.ip);
    if id == -1 || id !in s.info || s.info[id].addr != addr then s else
    WithInfo(s, id, s.info[id].(stats := s.info[id].stats.(services := services)))
  }

  /** How many addresses a getaddr reply may hold. */
  function GetAddrLimit(n: nat): nat {
    var share := GETADDR_MAX_PCT * n / 100;
    if share > GETADDR_MAX then GETADDR_MAX else share
  }

  datatype AddrReply = AddrReply(state: State, addrs: seq<Info>)

  /** Bring a random one of the entries from n on to place n. */
  function Draw(s: State, n: nat, draw: nat -> nat): (t: State)
    requires n < |s.random|
    ensures |t.random| == |s.random|
  {
    var j := if n <= draw(n) < |s.random| then draw(n) else n;
    if s.random[n] in s.info && s.random[j] in s.info then SwapRandom(s, n, j) else s
  }

  /** The reply after looking at the entry drawn to place n. */
  function Offer(s: State, n: nat, reply: seq<Info>, now: int): seq<Info>
    requires n < |s.random|
  {
    if s.random[n] !in s.info || IsTerrible(s.info[s.random[n]].stats, now) then reply
      else reply + [s.info[s.random[n]]]
  }

  /** Draw entries n, n + 1, ... into the reply until it is long enough. */
  function GetAddrFrom(s: State, n: nat, reply: seq<Info>, limit: nat, now: int, draw: nat -> nat): AddrReply
    decreases |s.random| - n
  {
    if n >= |s.random| || |reply| >= limit then AddrReply(s, reply) else
    var t := Draw(s, n, draw);
    GetAddrFrom(t, n + 1, Offer(t, n, reply, now), limit, now, draw)
  }

  /** What one draw keeps, all draws keep. */
  lemma {:induction false} OverDraws(s: State, n: nat, reply: seq<Info>, limit: nat, now: int, draw: nat -> nat,
                                     keeps: State -> bool)
    requires keeps(s) && forall u, m: nat :: keeps(u) && m < |u.random| ==> keeps(Draw(u, m, draw))
    ensures keeps(GetAddrFrom(s, n, reply, limit, now, draw).state)
    decreases |s.random| - n
  {
    if n < |s.random| && |reply| < limit {
      var t := Draw(s, n, draw);
      OverDraws(t, n + 1, Offer(t, n, reply, now), limit, now, draw, keeps);
    }
  }

  function GetAddr(s: State, now: int, draw: nat -> nat): AddrReply {
    GetAddrFrom(s, 0, [], GetAddrLimit(|s.random|), now, draw)
  }

  // ---- pending collisions

  datatype Verdict = Keep | Drop | Swap

  /** What becomes of the pending collision id. */
  function Judge(net: Net, s: State, id: int, now: int): Verdict {
    if id !in s.info || !net.isValid(s.info[id].addr.ip) then Drop else
    var k := s.TriedSlot(net, s.info[id].addr);
    if k !in s.triedTab then Swap
    else if s.triedTab[k] !in s.info then Keep
    else
      var rival := s.info[s.triedTab[k]].stats;
      if now - rival.lastSuccess < REPLACEMENT_HOURS * (60 * 60) then Drop
      else if now - rival.lastTry < REPLACEMENT_HOURS * (60 * 60) && now - rival.lastTry > 60 then Swap
      else Keep
  }

  ghost function ResolveOne(net: Net, s: State, id: int, now: int): State {
    match Judge(net, s, id, now)
    case Keep => s
    case Drop => s.(collisions := s.collisions - {id})
    case Swap =>
      var t := if id in s.info then Good(net, s, s.info[id].addr, false, now) else s;
      t.(collisions := t.collisions - {id})
  }

  /** Judge the pending collisions in increasing order of id. */
  ghost function ResolveFrom(net: Net, s: State, pending: set<int>, now: int): State
    decreases pending
  {
    if pending == {} then s else
    var m := Min(pending);
    ResolveFrom(net, ResolveOne(net, s, m, now), pending - {m}, now)
  }

  ghost function ResolveCollisions(net: Net, s: State, now: int): State {
    ResolveFrom(net, s, s.collisions, now)
  }

  const DEFAULT_INFO := Info(Service(0, 0), 0, Stats(0, 0, 0, 0, 0, 0), 0, false, -1)

  datatype Selection = Selection(state: State, info: Info)

  /**
   The tried entry that the pending collision id wants to evict. Were its tried slot free,
   the lookup of the id -1 would plant a default entry in info.
   */
  function SelectTriedCollision(net: Net, s: State, id: int): Selection
  {
    if id !in s.collisions then Selection(s, DEFAULT_INFO)
    else if id !in s.info then Selection(s.(collisions := s.collisions - {id}), DEFAULT_INFO)
    else
      var k := s.TriedSlot(net, s.info[id].addr);
      var rival := if k in s.triedTab then s.triedTab[k] else -1;
      if rival in s.info then Selection(s, s.info[rival]) else Selection(WithInfo(s, rival, DEFAULT_INFO), DEFAULT_INFO)
  }
}

/** The least element of a finite set, which is where an ordered traversal starts. */
module IntSets {
  ghost predicate IsMin(m: int, s: set<int>) { m in s && forall x :: x in s ==> m <= x }

  lemma {:induction false} MinExists(s: set<int>)
    requires s != {}
    ensures exists m :: IsMin(m, s)
  {
    assert (forall x :: x !in s) ==> s == {};
    var m :| m in s;
    var rest := s - {m};
    if rest == {} {
      assert s == {m};
      assert IsMin(m, s);
    } else {
      MinExists(rest);
      var r :| IsMin(r, rest);
      assert forall x :: x in s ==> x == m || x in rest;
      assert IsMin(if r < m then r else m, s);
    }
  }

  ghost function Min(s: set<int>): (m: int)
    requires s != {}
    ensures IsMin(m, s)
  {
    MinExists(s);
    var w :| IsMin(w, s);
    w
  }

  lemma {:induction false} DistinctSize(q: seq<int>, elems: set<int>)
    requires forall x :: x in elems <==> x in q
    requires forall i, j :: 0 <= i < j < |q| ==> q[i] != q[j]
    ensures |elems| == |q|
    decreases |q|
  {
    if q == [] {
      forall x ensures x !in elems { assert x !in q; }
      assert elems == {};
    } else {
      assert q == [q[0]] + q[1..];
      DistinctSize(q[1..], elems - {q[0]});
    }
  }

  lemma SubsetSize(a: set<int>, b: set<int>)
    requires a <= b
    ensures |a| <= |b|
  {
    assert b == a + (b - a);
  }

  ghost predicate Increasing(q: seq<int>) { forall i, j :: 0 <= i < j < |q| ==> q[i] < q[j] }

  /** An increasing list is determined by its elements. */
  lemma {:induction false} SameList(p: seq<int>, q: seq<int>)
    requires Increasing(p) && Increasing(q) && forall x :: x in p <==> x in q
    ensures p == q
    decreases |p|
  {
    if |q| > 0 {
      var y := q[0];
      assert y in q && y in p;
    }
    if p != [] {
      assert p[0] in p;
      assert p[0] in q && q[0] in p;
      var j :| 0 <= j < |q| && q[j] == p[0];
      var k :| 0 <= k < |p| && p[k] == q[0];
      assert p[0] == q[0];
      assert p == [p[0]] + p[1..] && q == [q[0]] + q[1..];
      forall x
        ensures x in p[1..] <==> x in q[1..]
      {
        assert x in p <==> x in q;
        assert p[0] !in p[1..] && q[0] !in q[1..];
      }
      SameList(p[1..], q[1..]);
    }
  }
}
