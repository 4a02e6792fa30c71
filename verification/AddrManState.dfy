/**
 The address manager as a value: the four interlocking indexes of CAddrMan, its two
 bucket tables and counters, and the invariant its own consistency check looks for.
 */
module AddrManState {
  const NEW_BUCKET_COUNT: nat := 1024
  const TRIED_BUCKET_COUNT: nat := 256
  const BUCKET_SIZE: nat := 64
  const NEW_BUCKETS_PER_ADDRESS: int := 8
  const MAX_TRIED_COLLISIONS: nat := 10
  const HORIZON_DAYS: int := 30
  const RETRIES: int := 3
  const MAX_FAILURES: int := 10
  const MIN_FAIL_DAYS: int := 7
  const REPLACEMENT_HOURS: int := 4
  const GETADDR_MAX_PCT: nat := 23
  const GETADDR_MAX: nat := 2500

  type NewIndex = n: nat | n < NEW_BUCKET_COUNT
  type TriedIndex = n: nat | n < TRIED_BUCKET_COUNT
  type Position = n: nat | n < BUCKET_SIZE

  /** A place in a bucket table. A table maps its occupied slots to the ids they hold. */
  datatype Slot = Slot(bucket: int, pos: int)
  type Table = map<Slot, int>

  /** 128-bit network address, 256-bit bucket key: only ever compared and hashed. */
  type NetAddr = nat
  type Key = nat
  const NULL_KEY: Key := 0

  datatype Service = Service(ip: NetAddr, port: nat)
  datatype Address = Address(service: Service, services: bv64, time: nat)

  /** The keyed hashes that choose buckets and positions, and the address classifiers. */
  datatype Net = Net(
    triedBucket: (Key, Service) -> TriedIndex,
    newBucket: (Key, NetAddr, NetAddr) -> NewIndex,
    position: (Key, bool, nat, Service) -> Position,
    isRoutable: NetAddr -> bool,
    isValid: NetAddr -> bool)

  /** What is remembered about an entry, apart from where it is kept. */
  datatype Stats = Stats(services: bv64, time: int, lastTry: int, lastCountAttempt: int, lastSuccess: int,
    attempts: int)

  datatype Info = Info(addr: Service, source: NetAddr, stats: Stats, refCount: int, inTried: bool, randomPos: int)

  function FreshInfo(a: Address, source: NetAddr, randomPos: int): Info {
    Info(a.service, source, Stats(a.services, a.time, 0, 0, 0, 0), 0, false, randomPos)
  }

  /** Are the statistics about this entry bad enough that it can just be deleted? */
  predicate IsTerrible(i: Stats, now: int) {
    if i.lastTry != 0 && i.lastTry >= now - 60 then false
    else
      || i.time > now + 10 * 60
      || i.time == 0
      || now - i.time > HORIZON_DAYS * 24 * 60 * 60
      || (i.lastSuccess == 0 && i.attempts >= RETRIES)
      || (now - i.lastSuccess > MIN_FAIL_DAYS * 24 * 60 * 60 && i.attempts >= MAX_FAILURES)
  }

  datatype State = State(
    key: Key,
    idCount: int,
    info: map<int, Info>,
    addr: map<NetAddr, int>,
    random: seq<int>,
    nTried: int,
    triedTab: Table,
    nNew: int,
    newTab: Table,
    lastGood: int,
    collisions: set<int>)
  {
    function TriedBucket(net: Net, a: Service): TriedIndex { net.triedBucket(key, a) }
    /** The only tried slot an entry may use. */
    function TriedSlot(net: Net, a: Service): Slot {
      Slot(TriedBucket(net, a), net.position(key, false, TriedBucket(net, a), a))
    }
    /** The only slot of new bucket b an entry may use. */
    function NewSlot(net: Net, a: Service, b: int): Slot
      requires 0 <= b
    {
      Slot(b, net.position(key, true, b, a))
    }

    /** The new buckets that hold id, an entry at address a. */
    function Buckets(net: Net, a: Service, id: int): set<int> {
      set b: int | 0 <= b < NEW_BUCKET_COUNT && NewSlot(net, a, b) in newTab && newTab[NewSlot(net, a, b)] == id
    }

    function NewIds(): set<int> { set id | id in info && !info[id].inTried }
    function TriedIds(): set<int> { set id | id in info && info[id].inTried }

    /** info and addr are mutually inverse; ids come from the id counter. */
    ghost predicate AddrIndexed() {
      && 0 <= idCount
      && (forall id :: id in info ==> 0 <= id < idCount)
      && (forall id {:trigger info[id].addr.ip} ::
        id in info ==> info[id].addr.ip in addr && addr[info[id].addr.ip] == id)
      && (forall a :: a in addr ==> var id := addr[a]; id in info && info[id].addr.ip == a)
    }

    /** info and random are mutually inverse. */
    ghost predicate RandomIndexed() {
      && (forall id {:trigger info[id].randomPos} ::
        id in info ==> 0 <= info[id].randomPos < |random| && random[info[id].randomPos] == id)
      && (forall k :: 0 <= k < |random| ==> var id := random[k]; id in info && info[id].randomPos == k)
    }

    ghost predicate TriedTableOk(net: Net) {
      && (forall k :: k in triedTab ==>
            var id := triedTab[k]; id in info && info[id].inTried && k == TriedSlot(net, info[id].addr))
      && (forall id {:trigger info[id].inTried} :: id in info && info[id].inTried ==>
            TriedSlot(net, info[id].addr) in triedTab && triedTab[TriedSlot(net, info[id].addr)] == id)
    }

    ghost predicate NewSlotsOk(net: Net) {
      forall k :: k in newTab ==>
        var id := newTab[k];
        && id in info && !info[id].inTried
        && 0 <= k.bucket < NEW_BUCKET_COUNT && k == NewSlot(net, info[id].addr, k.bucket)
    }

    ghost predicate RefCountsOk(net: Net) {
      forall id {:trigger Buckets(net, info[id].addr, id)} ::
        id in info ==> info[id].refCount == |Buckets(net, info[id].addr, id)|
    }

    /** Per-entry facts; entries in limbo may have no reference yet. */
    ghost predicate EntriesOk(limbo: set<int>) {
      forall id :: id in info ==>
        && info[id].refCount <= NEW_BUCKETS_PER_ADDRESS
        && (!info[id].inTried && id !in limbo ==> info[id].refCount >= 1)
    }

    /** The counters lag behind the tables by dNew and dTried. */
    ghost predicate CountersOk(dNew: int, dTried: int) {
      nNew + dNew == |NewIds()| && nTried + dTried == |TriedIds()|
    }

    /** What holds between the steps of an operation. */
    ghost predicate Weak(net: Net, limbo: set<int>, dNew: int, dTried: int) {
      AddrIndexed() && RandomIndexed() && TriedTableOk(net) && NewSlotsOk(net) && RefCountsOk(net) &&
        EntriesOk(limbo) && CountersOk(dNew, dTried)
    }

    /** Pending collisions name past ids, and their tried slot is occupied. */
    ghost predicate CollisionsOk(net: Net) {
      && |collisions| <= MAX_TRIED_COLLISIONS
      && (forall id :: id in collisions ==> 0 <= id < idCount)
      && (forall id :: id in collisions && id in info ==> TriedSlot(net, info[id].addr) in triedTab)
    }

    /** The recorded times are possible ones; a tried entry has succeeded. */
    ghost predicate TimesOk() {
      forall id :: id in info ==>
        && info[id].stats.lastTry >= 0 && info[id].stats.lastSuccess >= 0
        && (info[id].inTried ==> info[id].stats.lastSuccess != 0)
    }

    /** Indexes, tables, reference counts and counters agree. */
    ghost predicate Structured(net: Net) { Weak(net, {}, 0, 0) }

    /** What the consistency check finds about entries and tables; it does not look at pending collisions. */
    ghost predicate Consistent(net: Net) { Structured(net) && TimesOk() }

    /** What Check_ looks for: all that, and a key that is not null. */
    ghost predicate PassesCheck(net: Net) { Consistent(net) && key != NULL_KEY }

    /** What holds whatever the clock says. */
    ghost predicate Sound(net: Net) { Structured(net) && CollisionsOk(net) }

    ghost predicate Inv(net: Net) { Sound(net) && TimesOk() }

    /** Every tried slot of before that was filled is still filled. */
    ghost predicate KeepsTriedSlots(before: State) { before.triedTab.Keys <= triedTab.Keys }
  }

  function Empty(key: Key): State {
    State(key, 0, map[], map[], [], 0, map[], 0, map[], 1, {})
  }

  // ---- the building blocks of the operations

  function Find(s: State, a: NetAddr): (r: int)
    ensures r == -1 || (a in s.addr && r == s.addr[a] && r in s.info)
  {
    if a in s.addr && s.addr[a] in s.info then s.addr[a] else -1
  }

  /** The entry i under the given id, at the end of random. */
  function Enter(s: State, id: int, i: Info): State {
    s.(info := s.info[id := i], addr := s.addr[i.addr.ip := id], random := s.random + [id])
  }

  /** The entry i under the next id. */
  function Append(s: State, i: Info): State { Enter(s, s.idCount, i).(idCount := s.idCount + 1) }

  function Create(s: State, a: Address, source: NetAddr): State { Append(s, FreshInfo(a, source, |s.random|)) }

  function SwapRandom(s: State, i: nat, j: nat): State
    requires i < |s.random| && j < |s.random| && s.random[i] in s.info && s.random[j] in s.info
  {
    if i == j then s else
    var a, b := s.random[i], s.random[j];
    var m := s.info[a := s.info[a].(randomPos := j)];
    s.(info := m[b := m[b].(randomPos := i)], random := s.random[i := b][j := a])
  }

  /** s without the entry id, which the last place of random holds. */
  function DropLast(s: State, id: int): State
    requires id in s.info && |s.random| > 0
  {
    s.(random := s.random[..|s.random| - 1], addr := s.addr - {s.info[id].addr.ip}, info := s.info - {id},
      nNew := s.nNew - 1)
  }

  predicate CanDelete(s: State, id: int) {
    && id in s.info && !s.info[id].inTried && s.info[id].refCount == 0
    && 0 <= s.info[id].randomPos < |s.random|
    && s.random[s.info[id].randomPos] in s.info && s.random[|s.random| - 1] in s.info
  }

  function Delete(s: State, id: int): State
    requires CanDelete(s, id)
  {
    DropLast(SwapRandom(s, s.info[id].randomPos, |s.random| - 1), id)
  }

  function Unref(s: State, k: Slot): State
    requires k in s.newTab && s.newTab[k] in s.info
  {
    var id := s.newTab[k];
    s.(info := s.info[id := s.info[id].(refCount := s.info[id].refCount - 1)],
       newTab := s.newTab - {k})
  }

  function AddRef(s: State, k: Slot, id: int): State
    requires id in s.info
  {
    s.(info := s.info[id := s.info[id].(refCount := s.info[id].refCount + 1)],
       newTab := s.newTab[k := id])
  }
}
