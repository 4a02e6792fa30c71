/**
 What the manager remembers about an entry: failures count once between two successes, and
 a repeated announcement refreshes an entry and earns it references only under conditions.
 */
module AddrManHistory {
  import opened AddrManState
  import opened AddrManOps
  import opened AddrManSteps
  import opened AddrManProof
  import opened AddrManRuns
  import opened AddrManTheorems
  import opened AddrManTimes
  import Common
  import Reply = AddrManReply

  // ---- failures

  /** The operation reports no success, neither directly nor for a newcomer that takes a slot. */
  predicate NoSuccess(op: Op) { !op.GoodOp? && !op.ResolveOp? }

  /** A failure of exactly this service that is to be counted. */
  predicate CountsFailure(op: Op, addr: Service) { op.AttemptOp? && op.addr == addr && op.countFailure }

  /** Attempts are not reported for times before the last success. */
  predicate NotBefore(op: Op, lastGood: int) { op.AttemptOp? ==> op.time >= lastGood }

  /** What the operation does to the failures recorded for an entry. */
  ghost predicate FailuresAfter(s: State, t: State, op: Op, id: int)
    requires id in s.info && id in t.info
  {
    var i, j := s.info[id].stats, t.info[id].stats;
    if CountsFailure(op, s.info[id].addr) && i.lastCountAttempt < s.lastGood
      then j.attempts == i.attempts + 1 && j.lastCountAttempt == op.time
    else j.attempts == i.attempts && j.lastCountAttempt == i.lastCountAttempt
  }

  /** Entries that are in both have the same failures. */
  ghost predicate SameFailures(s: State, t: State) {
    && t.lastGood == s.lastGood
    && (forall id :: id in s.info && id in t.info ==>
          && t.info[id].stats.attempts == s.info[id].stats.attempts
          && t.info[id].stats.lastCountAttempt == s.info[id].stats.lastCountAttempt)
  }

  lemma NarrowedFailures(s: State, u: State, t: State)
    requires SameFailures(s, u) && s.info.Keys <= u.info.Keys && Narrowed(u, t)
    ensures SameFailures(s, t)
  {
  }

  lemma AddKnownFailures(net: Net, s: State, id: int, a: Address, source: NetAddr, penalty: int, now: int,
                         draw: nat -> nat)
    requires s.Sound(net) && id in s.info
    ensures SameFailures(s, AddKnown(net, s, id, a, source, penalty, now, draw))
  {
    var st := Merge(s.info[id].stats, a, penalty, now);
    var u := WithInfo(s, id, s.info[id].(stats := st));
    StatsKeep(net, s, id, st, {});
    if WantsRef(u.info[id], a, draw) {
      WeakenLimbo(net, u, id);
      InsertFrame(net, u, id, source, now);
      NarrowedFailures(s, u, Insert(net, u, id, source, now));
    }
  }

  lemma AddUnknownFailures(net: Net, s: State, a: Address, source: NetAddr, penalty: int, now: int)
    requires s.Sound(net) && a.service.ip !in s.addr
    ensures SameFailures(s, AddUnknown(net, s, a, source, penalty, now))
  {
    var u := Announced(s, a, source, penalty);
    CreateFine(net, s, a, source, penalty);
    InsertFrame(net, u, s.idCount, source, now);
    NarrowedFailures(s, u, Insert(net, u, s.idCount, source, now));
  }

  lemma AddFailures(net: Net, s: State, a: Address, source: NetAddr, penalty: int, now: int, draw: nat -> nat)
    requires s.Sound(net)
    ensures SameFailures(s, Add(net, s, a, source, penalty, now, draw).state)
  {
    FindKnown(s, a.service.ip);
    var p := if a.service.ip == source then 0 else penalty;
    if net.isRoutable(a.service.ip) {
      if a.service.ip in s.addr {
        AddKnownFailures(net, s, Find(s, a.service.ip), a, source, p, now, draw);
      } else {
        AddUnknownFailures(net, s, a, source, p, now);
      }
    }
  }

  lemma AttemptFailures(net: Net, s: State, addr: Service, countFailure: bool, time: int, id: int)
    requires s.Sound(net) && id in s.info
    ensures var t := Attempt(s, addr, countFailure, time);
      t.lastGood == s.lastGood && id in t.info && FailuresAfter(s, t, AttemptOp(addr, countFailure, time), id)
  {
    FindKnown(s, addr.ip);
    assert s.addr[s.info[id].addr.ip] == id;
  }

  lemma GetAddrFailures(net: Net, s: State, now: int, draw: nat -> nat)
    requires s.Sound(net)
    ensures SameFailures(s, GetAddr(s, now, draw).state)
  {
    var m := Reply.GetAddrFromLists(s, s, 0, [], GetAddrLimit(|s.random|), now, draw);
  }

  lemma StatsFailures(net: Net, s: State, addr: Service, time: int, services: bv64)
    requires s.Sound(net)
    ensures SameFailures(s, Connected(s, addr, time)) && SameFailures(s, SetServices(s, addr, services))
  {
  }

  lemma ApplyFailures(net: Net, s: State, op: Op, id: int)
    requires s.Sound(net) && NoSuccess(op) && id in s.info && id in Apply(net, s, op).info
    ensures Apply(net, s, op).lastGood == s.lastGood && FailuresAfter(s, Apply(net, s, op), op, id)
  {
    match op
    case AddOp(a, source, penalty, now, draw) => AddFailures(net, s, a, source, penalty, now, draw);
    case AttemptOp(addr, count, time) => AttemptFailures(net, s, addr, count, time, id);
    case ConnectedOp(addr, time) => StatsFailures(net, s, addr, time, 0);
    case SetServicesOp(addr, services) => StatsFailures(net, s, addr, 0, services);
    case GetAddrOp(now, draws) => GetAddrFailures(net, s, now, draws);
    case SelectOp(choice) => SelectKeeps(net, s, choice);
  }

  /** Does some operation of the run count a failure of this service? */
  ghost predicate SomeFailure(ops: seq<Op>, addr: Service) { exists op :: op in ops && CountsFailure(op, addr) }

  lemma FirstOrLater(ops: seq<Op>, addr: Service)
    requires ops != []
    ensures SomeFailure(ops, addr) <==> CountsFailure(ops[0], addr) || SomeFailure(ops[1..], addr)
  {
    assert ops == [ops[0]] + ops[1..];
  }

  /** An entry that survives a run was there all along, at the same address. */
  lemma StillThere(net: Net, s: State, op: Op, rest: seq<Op>, id: int)
    requires s.Sound(net) && id in s.info && id in Run(net, Apply(net, s, op), rest).info
    ensures var t := Apply(net, s, op); t.Sound(net) && id in t.info && t.info[id].addr == s.info[id].addr
  {
    ApplyKeeps(net, s, op);
    RunKeeps(net, Apply(net, s, op), rest);
  }

  /**
   However often an entry is tried in vain between two successes of the node, that counts as one failure: as
   none if nothing was counted, or if one was already counted since the last success.
   */
  lemma {:induction false} FailuresCountOnce(net: Net, s: State, ops: seq<Op>, id: int)
    requires s.Sound(net) && id in s.info && id in Run(net, s, ops).info
    requires forall op :: op in ops ==> NoSuccess(op) && NotBefore(op, s.lastGood)
    ensures var i, j := s.info[id].stats, Run(net, s, ops).info[id].stats;
      j.attempts == i.attempts +
        (if i.lastCountAttempt < s.lastGood && SomeFailure(ops, s.info[id].addr) then 1 else 0)
    decreases |ops|
  {
    if ops != [] {
      StillThere(net, s, ops[0], ops[1..], id);
      ApplyFailures(net, s, ops[0], id);
      FirstOrLater(ops, s.info[id].addr);
      FailuresCountOnce(net, Apply(net, s, ops[0]), ops[1..], id);
    }
  }

  // ---- announcements

  /** The announcement is over an hour newer than what is known, or over a day if the address was not online of late. */
  predicate Refreshes(i: Stats, a: Address, penalty: int, now: int) {
    a.time != 0 && (i.time == 0 || i.time + penalty + (if now - a.time < 86400 then 3600 else 86400) < a.time)
  }

  function Refreshed(i: Stats, a: Address, penalty: int, now: int): Stats {
    i.(time := if Refreshes(i, a, penalty, now) then Common.Max(0, a.time - penalty) else i.time,
       services := i.services | a.services)
  }

  /**
   A new entry with n of at most eight references earns another with one chance in 2^n, by an announcement that
   is newer than what is now known, if slot k holds no other entry that is worth keeping.
   */
  ghost predicate Earns(s: State, id: int, k: Slot, st: Stats, a: Address, now: int, draw: nat -> nat)
    requires id in s.info && 0 <= s.info[id].refCount
  {
    && a.time != 0 && a.time > st.time
    && !s.info[id].inTried && s.info[id].refCount < 8 && draw(Powers.Pow(2, s.info[id].refCount)) == 0
    && (k in s.newTab ==>
          && s.newTab[k] != id && s.newTab[k] in s.info
          && !Reply.Presentable(s.info[s.newTab[k]].stats, now))
  }

  /** t is s after the entry id got the statistics st, and maybe one more reference, at k. */
  ghost predicate Announces(s: State, t: State, id: int, k: Slot, st: Stats, earns: bool)
    requires id in s.info
  {
    && id in t.info && t.info[id].stats == st && t.info[id].addr == s.info[id].addr && t.triedTab == s.triedTab
    && t.info[id].refCount == s.info[id].refCount + (if earns then 1 else 0)
    && t.newTab == if earns then s.newTab[k := id] else s.newTab
  }

  lemma ReferenceAdded(u: State, c: State, id: int, k: Slot)
    requires ClearFrame(u, c, k) && Kept(u, c, id)
    ensures Announces(u, AddRef(c, k, id), id, k, u.info[id].stats, true)
  {
    assert (u.newTab - {k})[k := id] == u.newTab[k := id];
  }

  /** What Insert makes of an entry that has a reference already. */
  lemma InsertAnnounces(net: Net, u: State, id: int, source: NetAddr, now: int)
    requires u.Weak(net, {id}, 0, 0) && id in u.info && !u.info[id].inTried && 0 < u.info[id].refCount < 8
    ensures var k := AddSlot(net, u, u.info[id].addr, source);
      Announces(u, Insert(net, u, id, source, now), id, k, u.info[id].stats,
                k in u.newTab ==> u.newTab[k] != id && !Reply.Presentable(u.info[u.newTab[k]].stats, now))
  {
    var k := AddSlot(net, u, u.info[id].addr, source);
    if k in u.newTab {
      Reply.PresentableIsNotTerrible(u.info[u.newTab[k]].stats, now);
    }
    if k in u.newTab ==> u.newTab[k] != id && IsTerrible(u.info[u.newTab[k]].stats, now) {
      InsertAtKeeps(net, u, k, id);
      ReferenceAdded(u, ClearNew(u, k), id, k);
    }
  }

  lemma MergeRefreshes(i: Stats, a: Address, penalty: int, now: int)
    ensures Merge(i, a, penalty, now) == Refreshed(i, a, penalty, now)
  {
  }

  lemma KnownAnnounced(net: Net, s: State, id: int, a: Address, source: NetAddr, penalty: int, now: int,
                       draw: nat -> nat)
    requires s.Sound(net) && id in s.info
    ensures s.info[id].refCount >= 0
    ensures var k := AddSlot(net, s, s.info[id].addr, source);
      var st := Refreshed(s.info[id].stats, a, penalty, now);
      Announces(s, AddKnown(net, s, id, a, source, penalty, now, draw), id, k, st,
                Earns(s, id, k, st, a, now, draw))
  {
    var k := AddSlot(net, s, s.info[id].addr, source);
    var st := Refreshed(s.info[id].stats, a, penalty, now);
    MergeRefreshes(s.info[id].stats, a, penalty, now);
    var u := WithInfo(s, id, s.info[id].(stats := st));
    StatsKeep(net, s, id, st, {});
    assert s.info[id].refCount == |s.Buckets(net, s.info[id].addr, id)|;
    if WantsRef(u.info[id], a, draw) {
      WeakenLimbo(net, u, id);
      InsertAnnounces(net, u, id, source, now);
    }
  }

  /** A repeated announcement refreshes the entry, and gives it another reference exactly if it earns one. */
  lemma AddAgain(net: Net, s: State, a: Address, source: NetAddr, penalty: int, now: int, draw: nat -> nat)
    requires s.Sound(net) && net.isRoutable(a.service.ip) && a.service.ip in s.addr
    ensures var id := s.addr[a.service.ip]; id in s.info && s.info[id].refCount >= 0
    ensures var id := s.addr[a.service.ip];
      var k := AddSlot(net, s, s.info[id].addr, source);
      var st := Refreshed(s.info[id].stats, a, if a.service.ip == source then 0 else penalty, now);
      var r := Add(net, s, a, source, penalty, now, draw);
      !r.isNew && Announces(s, r.state, id, k, st, Earns(s, id, k, st, a, now, draw))
  {
    FindKnown(s, a.service.ip);
    KnownAnnounced(net, s, s.addr[a.service.ip], a, source, if a.service.ip == source then 0 else penalty, now, draw);
  }

  /** What is remembered of an address that was announced for the first time. */
  ghost predicate Learned(net: Net, s: State, t: State, a: Address, source: NetAddr, penalty: int) {
    var id, k := s.idCount, AddSlot(net, s, a.service, source);
    && id in t.info
    && t.info[id] == Info(a.service, source, Stats(a.services, Common.Max(0, a.time - penalty), 0, 0, 0, 0), 1, false,
                          t.info[id].randomPos)
    && t.newTab == s.newTab[k := id] && t.triedTab == s.triedTab
  }

  /** An entry without reference gets one, and is otherwise kept, if there is room. */
  lemma RoomIsTaken(net: Net, u: State, id: int, source: NetAddr, now: int)
    requires u.Weak(net, {id}, 0, 0) && id in u.info && !u.info[id].inTried && u.info[id].refCount == 0
    requires HasRoom(u, AddSlot(net, u, u.info[id].addr, source), now)
    ensures var t := Insert(net, u, id, source, now); var k := AddSlot(net, u, u.info[id].addr, source);
      && Announces(u, t, id, k, u.info[id].stats, true)
      && t.info[id].source == u.info[id].source && !t.info[id].inTried
  {
    var k := AddSlot(net, u, u.info[id].addr, source);
    NotHeld(net, u, id);
    InsertAtKeeps(net, u, k, id);
    ReferenceAdded(u, ClearNew(u, k), id, k);
  }

  lemma NewcomerLearned(net: Net, s: State, u: State, a: Address, source: NetAddr, penalty: int, now: int)
    requires u == Announced(s, a, source, penalty) && u.Weak(net, {s.idCount}, 0, 0)
    requires HasRoom(u, AddSlot(net, s, a.service, source), now)
    ensures Learned(net, s, Insert(net, u, s.idCount, source, now), a, source, penalty)
  {
    RoomIsTaken(net, u, s.idCount, source, now);
  }

  lemma NewcomerForgotten(net: Net, s: State, a: Address, source: NetAddr, penalty: int)
    requires s.Sound(net) && a.service.ip !in s.addr
    ensures CanDelete(Announced(s, a, source, penalty), s.idCount)
    ensures Delete(Announced(s, a, source, penalty), s.idCount) == s.(idCount := s.idCount + 1)
  {
    var u := Announced(s, a, source, penalty);
    var t := Delete(u, s.idCount);
    assert t.random == s.random;
    assert t.info == s.info;
    assert t.addr == s.addr;
  }

  lemma NoRoomForgets(net: Net, u: State, id: int, source: NetAddr, now: int)
    requires u.Weak(net, {id}, 0, 0) && CanDelete(u, id)
    requires !HasRoom(u, AddSlot(net, u, u.info[id].addr, source), now)
    ensures Insert(net, u, id, source, now) == Delete(u, id)
  {
    NotHeld(net, u, id);
  }

  lemma UnknownAnnounced(net: Net, s: State, a: Address, source: NetAddr, penalty: int, now: int)
    requires s.Sound(net) && a.service.ip !in s.addr
    ensures var t := AddUnknown(net, s, a, source, penalty, now);
      if HasRoom(s, AddSlot(net, s, a.service, source), now) then Learned(net, s, t, a, source, penalty)
      else t == s.(idCount := s.idCount + 1)
  {
    var u, k := Announced(s, a, source, penalty), AddSlot(net, s, a.service, source);
    CreateFine(net, s, a, source, penalty);
    AnnouncedRoom(net, s, a, source, penalty, k, now);
    if HasRoom(s, k, now) {
      NewcomerLearned(net, s, u, a, source, penalty, now);
    } else {
      NewcomerForgotten(net, s, a, source, penalty);
      NoRoomForgets(net, u, s.idCount, source, now);
    }
  }

  /** The first announcement of an address is remembered with one reference, or leaves no trace but a used id. */
  lemma AddFirst(net: Net, s: State, a: Address, source: NetAddr, penalty: int, now: int, draw: nat -> nat)
    requires s.Sound(net) && net.isRoutable(a.service.ip) && a.service.ip !in s.addr
    ensures var r := Add(net, s, a, source, penalty, now, draw);
      && r.isNew
      && if HasRoom(s, AddSlot(net, s, a.service, source), now)
           then Learned(net, s, r.state, a, source, if a.service.ip == source then 0 else penalty)
         else r.state == s.(idCount := s.idCount + 1)
  {
    var p := if a.service.ip == source then 0 else penalty;
    FindKnown(s, a.service.ip);
    UnknownAnnounced(net, s, a, source, p, now);
  }

  // ---- reports

  /** Only the entry id has other statistics than before, namely st. */
  ghost predicate Records(s: State, t: State, id: int, st: Stats) {
    && id in t.info && t.info[id].stats == st && t.info.Keys <= s.info.Keys
    && (forall x :: x in t.info && x != id ==> t.info[x].stats == s.info[x].stats)
  }

  lemma NarrowedRecords(s: State, t: State, id: int)
    requires Narrowed(s, t) && id in t.info
    ensures Records(s, t, id, s.info[id].stats)
  {
    forall x | x in t.info
      ensures x in s.info
    {
    }
  }

  lemma PromotedStats(net: Net, s: State, id: int, testBeforeEvict: bool)
    requires s.Sound(net) && id in s.info
    ensures var t := Promote(net, s, id, testBeforeEvict);
      Records(s, t, id, s.info[id].stats) && t.lastGood == s.lastGood
  {
    if s.info[id].inTried || s.Buckets(net, s.info[id].addr, id) == {} {
    } else if testBeforeEvict && s.TriedSlot(net, s.info[id].addr) in s.triedTab {
    } else {
      MakeTriedKeeps(net, s, id);
      MadeTried(net, s, id);
      NarrowedRecords(s, MakeTried(net, s, id), id);
    }
  }

  lemma TouchedRecords(s: State, t: State, u: State, id: int, time: int)
    requires id in s.info && t == Touch(s.(lastGood := time), id, time) && Records(t, u, id, t.info[id].stats)
    ensures Records(s, u, id, s.info[id].stats.(lastSuccess := time, lastTry := time, attempts := 0))
  {
    forall x | x in u.info
      ensures x in s.info
    {
      assert x in t.info;
    }
  }

  /** A success is recorded for exactly the service it was reported for, and clears its failures. */
  lemma GoodRecords(net: Net, s: State, addr: Service, testBeforeEvict: bool, time: int)
    requires s.Sound(net)
    ensures var t := Good(net, s, addr, testBeforeEvict, time);
      && t.lastGood == time
      && if Known(s, addr) then
           var id := s.addr[addr.ip];
           Records(s, t, id, s.info[id].stats.(lastSuccess := time, lastTry := time, attempts := 0))
         else t == s.(lastGood := time)
  {
    FindKnown(s.(lastGood := time), addr.ip);
    if Known(s, addr) {
      var id := s.addr[addr.ip];
      var t := GoodTouches(net, s, addr, testBeforeEvict, time);
      PromotedStats(net, t, id, testBeforeEvict);
      TouchedRecords(s, t, Promote(net, t, id, testBeforeEvict), id, time);
    }
  }

  /** A connection brings the recorded time of its service up to within twenty minutes of the report. */
  lemma ConnectedRecords(net: Net, s: State, addr: Service, time: int)
    requires s.Sound(net)
    ensures var t := Connected(s, addr, time);
      if Known(s, addr) then
        var id := s.addr[addr.ip];
        var st := s.info[id].stats;
        Records(s, t, id, if st.time < time - 1200 then st.(time := time) else st)
      else t == s
  {
    FindKnown(s, addr.ip);
  }
}
