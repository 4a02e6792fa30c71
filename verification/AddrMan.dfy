/**
 The address manager as the program keeps it: maps, a vector, two fixed tables and
 counters, updated in place. Each method is proved against the function of the same
 name on states.
 */
module AddrMan {
  import opened AddrManState
  import opened AddrManSteps
  import opened AddrManProof
  import opened AddrManRuns
  import opened IntSets
  import opened AddrManTimes
  import opened Powers
  import Collisions = AddrManCollisions
  import Common
  import Reply = AddrManReply
  import Ops = AddrManOps

  function Slots(rows: nat, cols: nat): set<Slot> {
    set b, p | 0 <= b < rows && 0 <= p < cols :: Slot(b, p)
  }

  /** The occupied slots of a bucket table. */
  ghost function Occupied(t: array2<int>): (m: Table)
    reads t
    ensures forall k :: k in m <==> 0 <= k.bucket < t.Length0 && 0 <= k.pos < t.Length1 && t[k.bucket, k.pos] != -1
    ensures forall k :: k in m ==> m[k] == t[k.bucket, k.pos]
  {
    map k | k in Slots(t.Length0, t.Length1) && t[k.bucket, k.pos] != -1 :: t[k.bucket, k.pos]
  }

  method Put(t: array2<int>, b: nat, p: nat, id: int)
    requires b < t.Length0 && p < t.Length1
    modifies t
    ensures id != -1 ==> Occupied(t) == old(Occupied(t))[Slot(b, p) := id]
    ensures id == -1 ==> Occupied(t) == old(Occupied(t)) - {Slot(b, p)}
  {
    t[b, p] := id;
  }

  class Manager {
    const net: Net
    const vvNew: array2<int>
    const vvTried: array2<int>
    var key: Key
    var idCount: int
    var mapInfo: map<int, Info>
    var mapAddr: map<NetAddr, int>
    var random: seq<int>
    var nTried: int
    var nNew: int
    var lastGood: int
    var collisions: set<int>

    ghost predicate Shape() {
      && vvNew.Length0 == NEW_BUCKET_COUNT && vvNew.Length1 == BUCKET_SIZE
      && vvTried.Length0 == TRIED_BUCKET_COUNT && vvTried.Length1 == BUCKET_SIZE
      && vvNew != vvTried
    }

    ghost function Model(): State
      reads this, vvNew, vvTried
    {
      State(key, idCount, mapInfo, mapAddr, random, nTried, Occupied(vvTried), nNew, Occupied(vvNew), lastGood,
        collisions)
    }

    /** What every operation keeps, whatever the clock says. */
    ghost predicate Sound()
      reads this, vvNew, vvTried
    {
      Shape() && Model().Sound(net)
    }

    ghost predicate Valid()
      reads this, vvNew, vvTried
    {
      Sound() && Model().TimesOk()
    }

    constructor (net: Net, key: Key)
      ensures Valid() && Model() == Empty(key) && this.net == net
      ensures fresh(vvNew) && fresh(vvTried)
    {
      this.net := net;
      vvNew := new int[NEW_BUCKET_COUNT, BUCKET_SIZE]((b, p) => -1);
      vvTried := new int[TRIED_BUCKET_COUNT, BUCKET_SIZE]((b, p) => -1);
      this.key := key;
      idCount, mapInfo, mapAddr, random, nTried, nNew, lastGood, collisions := 0, map[], map[], [], 0, 0, 1, {};
      new;
      assert Occupied(vvNew) == map[];
      assert Occupied(vvTried) == map[];
      EmptyIsFine(net, key);
    }

    method SwapRandom(i: nat, j: nat)
      requires i < |random| && j < |random| && random[i] in mapInfo && random[j] in mapInfo
      modifies this
      ensures Model() == AddrManState.SwapRandom(old(Model()), i, j)
    {
      if i == j { return; }
      var id1, id2 := random[i], random[j];
      mapInfo := mapInfo[id1 := mapInfo[id1].(randomPos := j)];
      mapInfo := mapInfo[id2 := mapInfo[id2].(randomPos := i)];
      random := random[i := id2][j := id1];
    }

    method Delete(id: int)
      requires CanDelete(Model(), id)
      modifies this
      ensures Model() == AddrManState.Delete(old(Model()), id)
    {
      SwapRandom(mapInfo[id].randomPos, |random| - 1);
      random := random[..|random| - 1];
      mapAddr := mapAddr - {mapInfo[id].addr.ip};
      mapInfo := mapInfo - {id};
      nNew := nNew - 1;
    }

    method ClearNew(b: NewIndex, p: Position, ghost limbo: set<int>, ghost dNew: int, ghost dTried: int)
      requires Shape() && Model().Weak(net, limbo, dNew, dTried)
      modifies this, vvNew
      ensures Model() == Ops.ClearNew(old(Model()), Slot(b, p))
    {
      if vvNew[b, p] != -1 {
        var id := vvNew[b, p];
        assert Occupied(vvNew)[Slot(b, p)] == id;
        ghost var s := Model();
        UnrefKeeps(net, s, Slot(b, p), limbo, dNew, dTried);
        assert mapInfo[id].refCount > 0;
        mapInfo := mapInfo[id := mapInfo[id].(refCount := mapInfo[id].refCount - 1)];
        Put(vvNew, b, p, -1);
        assert Model() == Unref(s, Slot(b, p));
        if mapInfo[id].refCount == 0 {
          CanDeleteUnreferenced(Model(), id);
          Delete(id);
        }
      }
    }

    /** Take id out of one new bucket. */
    method DropFrom(bucket: NewIndex, id: int)
      requires Shape() && id in mapInfo && id >= 0
      modifies this`mapInfo, vvNew
      ensures Model() == DropOne(net, old(Model()), id, bucket)
    {
      var pos := net.position(key, true, bucket, mapInfo[id].addr);
      if vvNew[bucket, pos] == id {
        Put(vvNew, bucket, pos, -1);
        mapInfo := mapInfo[id := mapInfo[id].(refCount := mapInfo[id].refCount - 1)];
      }
    }

    /** Take id out of every new bucket. */
    method DropAll(id: int)
      requires Shape() && id in mapInfo && id >= 0
      modifies this`mapInfo, vvNew
      ensures Model() == DropEach(net, old(Model()), id, NEW_BUCKET_COUNT)
    {
      ghost var s := Model();
      var bucket := 0;
      while bucket < NEW_BUCKET_COUNT
        invariant 0 <= bucket <= NEW_BUCKET_COUNT
        invariant Model() == DropEach(net, s, id, bucket)
      {
        DropFrom(bucket, id);
        bucket := bucket + 1;
      }
    }

    method StripNew(id: int)
      requires Shape() && id in mapInfo && id >= 0
      modifies this`mapInfo, this`nNew, vvNew
      ensures Model() == Ops.Strip(net, old(Model()), id)
    {
      DropEachStrips(net, Model(), id);
      DropAll(id);
      nNew := nNew - 1;
    }

    method DemoteTried(b: TriedIndex, p: Position, id: int)
      requires Shape() && id in mapInfo
      modifies this, vvTried
      ensures Model() == Ops.Demote(old(Model()), Slot(b, p), id)
    {
      mapInfo := mapInfo[id := mapInfo[id].(inTried := false)];
      Put(vvTried, b, p, -1);
      nTried := nTried - 1;
    }

    method PlaceTried(b: TriedIndex, p: Position, id: int)
      requires Shape() && id in mapInfo && id >= 0
      modifies this, vvTried
      ensures Model() == Ops.Place(old(Model()), Slot(b, p), id)
    {
      Put(vvTried, b, p, id);
      nTried := nTried + 1;
      mapInfo := mapInfo[id := mapInfo[id].(inTried := true)];
    }

    /** Move the entry of tried slot (b, p) back to the new table; id is on its way to tried. */
    method EvictTried(b: TriedIndex, p: Position, id: int)
      requires Shape() && Model().Weak(net, {id}, 1, 0)
      requires id in mapInfo && !mapInfo[id].inTried && mapInfo[id].refCount == 0
      modifies this, vvNew, vvTried
      ensures Model() == Ops.Evict(net, old(Model()), Slot(b, p))
    {
      if vvTried[b, p] != -1 {
        ghost var s := Model();
        var evicted := vvTried[b, p];
        assert s.triedTab[Slot(b, p)] == evicted;
        DemotedIsHomeless(net, s, Slot(b, p), id);
        DemoteKeeps(net, s, Slot(b, p), {id}, 1, 0);
        assert evicted in mapInfo;
        DemoteTried(b, p, evicted);
        Reenter(evicted, {id} + {evicted}, 2, 0);
      }
    }

    /** A demoted entry takes back the new slot its source selects. */
    method Reenter(id: int, ghost limbo: set<int>, ghost dNew: int, ghost dTried: int)
      requires Shape() && Model().Weak(net, limbo, dNew, dTried)
      requires id in mapInfo && !mapInfo[id].inTried && mapInfo[id].refCount == 0
      modifies this, vvNew
      ensures Model() == Ops.Resettle(old(Model()), Ops.HomeSlot(net, old(Model()), old(mapInfo)[id]), id)
      ensures Occupied(vvTried) == old(Occupied(vvTried))
    {
      var b := net.newBucket(key, mapInfo[id].addr.ip, mapInfo[id].source);
      var p := net.position(key, true, b, mapInfo[id].addr);
      ghost var d := Model();
      MakeRoom(net, d, Slot(b, p), id, limbo, dNew, dTried);
      ClearNew(b, p, limbo, dNew, dTried);
      assert Slot(b, p) !in Model().newTab;
      assert vvNew[b, p] == -1;
      mapInfo := mapInfo[id := mapInfo[id].(refCount := 1)];
      IdsAreNat(d, id);
      Put(vvNew, b, p, id);
      nNew := nNew + 1;
    }

    /** Enter id, which no bucket holds any more, into the tried table. */
    method EnterTried(id: int)
      requires Shape() && Model().Weak(net, {id}, 1, 0)
      requires id in mapInfo && !mapInfo[id].inTried && mapInfo[id].refCount == 0
      modifies this, vvNew, vvTried
      ensures var k := old(Model()).TriedSlot(net, old(mapInfo)[id].addr);
        Model() == Ops.PlaceIfKnown(Ops.Evict(net, old(Model()), k), k, id)
    {
      ghost var s := Model();
      IdsAreNat(s, id);
      var b := net.triedBucket(key, mapInfo[id].addr);
      var p := net.position(key, false, b, mapInfo[id].addr);
      EvictFrame(net, s, Slot(b, p), id, 1, 0);
      EvictTried(b, p, id);
      assert Slot(b, p) !in Model().triedTab;
      assert vvTried[b, p] == -1;
      PlaceTried(b, p, id);
    }

    method MakeTried(id: int)
      requires Shape() && Model().Structured(net) && id in mapInfo && !mapInfo[id].inTried
      modifies this, vvNew, vvTried
      ensures Model() == Ops.MakeTried(net, old(Model()), id)
    {
      IdsAreNat(Model(), id);
      StripKeeps(net, Model(), id);
      StripNew(id);
      assert mapInfo[id].refCount == 0;
      EnterTried(id);
    }

    method Find(a: NetAddr) returns (id: int)
      ensures id == AddrManState.Find(Model(), a)
    {
      id := if a in mapAddr && mapAddr[a] in mapInfo then mapAddr[a] else -1;
    }

    /** The search for a new bucket that holds id, from a random bucket onwards. */
    method FindBucket(id: int, start: nat) returns (found: int)
      requires Shape() && id in mapInfo && id >= 0
      ensures found == -1 <==> Model().Buckets(net, mapInfo[id].addr, id) == {}
      ensures found != -1 ==> found in Model().Buckets(net, mapInfo[id].addr, id)
    {
      ghost var held := Model().Buckets(net, mapInfo[id].addr, id);
      found := -1;
      for n := 0 to NEW_BUCKET_COUNT
        invariant found == -1
        invariant forall m :: 0 <= m < n ==> Probe(m, start) !in held
      {
        var b := Probe(n, start);
        var p := net.position(key, true, b, mapInfo[id].addr);
        assert b in held <==> vvNew[b, p] == id by { HeldAt(Model(), net, mapInfo[id].addr, id, b); }
        if vvNew[b, p] == id {
          return b;
        }
      }
      ProbesCover(start, held);
    }

    method Promote(id: int, testBeforeEvict: bool, start: nat)
      requires Shape() && Model().Structured(net) && id in mapInfo
      modifies this, vvNew, vvTried
      ensures Model() == Ops.Promote(net, old(Model()), id, testBeforeEvict)
    {
      if mapInfo[id].inTried { return; }
      IdsAreNat(Model(), id);
      HeldSomewhere(net, Model(), id);
      var found := FindBucket(id, start);
      assert found != -1;
      var b := net.triedBucket(key, mapInfo[id].addr);
      var p := net.position(key, false, b, mapInfo[id].addr);
      if testBeforeEvict && vvTried[b, p] != -1 {
        if |collisions| < MAX_TRIED_COLLISIONS {
          collisions := collisions + {id};
        }
      } else {
        MakeTried(id);
      }
    }

    method TouchAndPromote(id: int, testBeforeEvict: bool, time: int, start: nat)
      requires Sound() && id in mapInfo
      modifies this, vvNew, vvTried
      ensures Model() == Ops.Promote(net, Ops.Touch(old(Model()), id, time), id, testBeforeEvict)
    {
      TouchKeeps(net, Model(), id, time);
      mapInfo := mapInfo[id := mapInfo[id].(stats := mapInfo[id].stats.(lastSuccess := time, lastTry := time,
        attempts := 0))];
      Promote(id, testBeforeEvict, start);
    }

    method Good(addr: Service, testBeforeEvict: bool, time: int, start: nat)
      requires Sound()
      modifies this, vvNew, vvTried
      ensures Model() == Ops.Good(net, old(Model()), addr, testBeforeEvict, time)
      ensures Sound() && (old(Valid()) ==> (Valid() <==> GoodTimely(net, old(Model()), addr, testBeforeEvict, time)))
    {
      ghost var s := Model();
      if s.TimesOk() {
        GoodTimes(net, s, addr, testBeforeEvict, time);
      }
      GoodKeeps(net, s, addr, testBeforeEvict, time);
      LastGoodKeeps(net, s, time);
      lastGood := time;
      FindKnown(Model(), addr.ip);
      var id := Find(addr.ip);
      if id != -1 && mapInfo[id].addr == addr {
        TouchAndPromote(id, testBeforeEvict, time, start);
      }
    }

    method Create(a: Address, source: NetAddr) returns (id: int)
      modifies this
      ensures id == old(idCount) && Model() == AddrManState.Create(old(Model()), a, source)
    {
      id := idCount;
      idCount := idCount + 1;
      mapInfo := mapInfo[id := FreshInfo(a, source, |random|)];
      mapAddr := mapAddr[a.service.ip := id];
      random := random + [id];
    }

    method AddReference(b: NewIndex, p: Position, id: int)
      requires Shape() && id in mapInfo && id >= 0
      modifies this, vvNew
      ensures Model() == AddRef(old(Model()), Slot(b, p), id)
    {
      mapInfo := mapInfo[id := mapInfo[id].(refCount := mapInfo[id].refCount + 1)];
      Put(vvNew, b, p, id);
    }

    /** Give id a reference in the bucket its source selects, if the slot there can be had. */
    method Insert(id: int, source: NetAddr, now: int)
      requires Shape() && Model().Weak(net, {id}, 0, 0)
      requires id in mapInfo && !mapInfo[id].inTried && mapInfo[id].refCount < NEW_BUCKETS_PER_ADDRESS
      modifies this, vvNew
      ensures Model() == Ops.Insert(net, old(Model()), id, source, now)
    {
      IdsAreNat(Model(), id);
      var b := net.newBucket(key, mapInfo[id].addr.ip, source);
      var p := net.position(key, true, b, mapInfo[id].addr);
      ghost var k := Slot(b, p);
      assert k in Model().newTab <==> vvNew[b, p] != -1;
      if vvNew[b, p] != id {
        var replace := vvNew[b, p] == -1;
        if !replace {
          assert vvNew[b, p] == Model().newTab[k];
          replace := Ops.CanReplace(mapInfo[vvNew[b, p]], mapInfo[id], now);
        }
        if replace {
          InsertAtKeeps(net, Model(), k, id);
          ClearNew(b, p, {id}, 0, 0);
          AddReference(b, p, id);
        } else if mapInfo[id].refCount == 0 {
          CanDeleteUnreferenced(Model(), id);
          Delete(id);
        }
      }
    }

    /** The number drawn below 2^refCount decides; only 0 wins. */
    static method Lottery(refCount: int, draw: nat -> nat) returns (won: bool)
      ensures won <==> refCount <= 0 || draw(Pow(2, refCount)) == 0
    {
      var factor: nat, n := 1, 0;
      while n < refCount
        invariant n >= 0 && (n <= refCount || n == 0) && factor == Pow(2, n) && (factor > 1 <==> n > 0)
      {
        factor := factor * 2;
        n := n + 1;
      }
      won := !(factor > 1 && draw(factor) != 0);
    }

    method AddKnown(id: int, a: Address, source: NetAddr, penalty: int, now: int, draw: nat -> nat)
      requires Sound() && id in mapInfo
      modifies this, vvNew
      ensures Model() == Ops.AddKnown(net, old(Model()), id, a, source, penalty, now, draw)
    {
      var st := Ops.Merge(mapInfo[id].stats, a, penalty, now);
      StatsKeep(net, Model(), id, st, {});
      mapInfo := mapInfo[id := mapInfo[id].(stats := st)];
      if a.time == 0 || (st.time != 0 && a.time <= st.time) { return; }
      if mapInfo[id].inTried || mapInfo[id].refCount == NEW_BUCKETS_PER_ADDRESS { return; }
      var won := Lottery(mapInfo[id].refCount, draw);
      if !won { return; }
      WeakenLimbo(net, Model(), id);
      Insert(id, source, now);
    }

    method Announce(a: Address, source: NetAddr, penalty: int) returns (id: int)
      modifies this
      ensures id == old(idCount) && Model() == Ops.Announced(old(Model()), a, source, penalty)
    {
      id := Create(a, source);
      mapInfo := mapInfo[id := mapInfo[id].(stats := mapInfo[id].stats.(time := Common.Max(0,
        mapInfo[id].stats.time - penalty)))];
      nNew := nNew + 1;
    }

    method AddUnknown(a: Address, source: NetAddr, penalty: int, now: int)
      requires Sound() && a.service.ip !in mapAddr
      modifies this, vvNew
      ensures Model() == Ops.AddUnknown(net, old(Model()), a, source, penalty, now)
    {
      CreateFine(net, Model(), a, source, penalty);
      var id := Announce(a, source, penalty);
      Insert(id, source, now);
    }

    method Add(a: Address, source: NetAddr, penalty: int, now: int, draw: nat -> nat) returns (isNew: bool)
      requires Sound()
      modifies this, vvNew
      ensures var r := Ops.Add(net, old(Model()), a, source, penalty, now, draw); Model() == r.state && isNew == r.isNew
      ensures Sound() && (old(Valid()) ==> Valid())
    {
      ghost var s := Model();
      if s.TimesOk() {
        AddTimes(net, s, a, source, penalty, now, draw);
      }
      AddKeeps(net, s, a, source, penalty, now, draw);
      if !net.isRoutable(a.service.ip) { return false; }
      FindKnown(s, a.service.ip);
      var id := Find(a.service.ip);
      var p := if a.service.ip == source then 0 else penalty;
      if id != -1 {
        AddKnown(id, a, source, p, now, draw);
        isNew := false;
      } else {
        AddUnknown(a, source, p, now);
        isNew := true;
      }
    }

    /** Replaces the statistics of an entry. */
    method SetStats(id: int, st: Stats)
      requires id in mapInfo
      modifies this`mapInfo
      ensures Model() == Ops.WithInfo(old(Model()), id, old(mapInfo)[id].(stats := st))
    {
      mapInfo := mapInfo[id := mapInfo[id].(stats := st)];
    }

    method NoteAttempt(addr: Service, countFailure: bool, time: int)
      modifies this`mapInfo
      ensures Model() == Ops.Attempt(old(Model()), addr, countFailure, time)
    {
      var id := Find(addr.ip);
      if id != -1 && mapInfo[id].addr == addr {
        var i := mapInfo[id].stats.(lastTry := time);
        if countFailure && i.lastCountAttempt < lastGood {
          i := i.(lastCountAttempt := time, attempts := i.attempts + 1);
        }
        SetStats(id, i);
      }
    }

    method Attempt(addr: Service, countFailure: bool, time: int)
      requires Sound()
      modifies this`mapInfo
      ensures Model() == Ops.Attempt(old(Model()), addr, countFailure, time)
      ensures Sound() && (old(Valid()) ==> (Valid() <==> (Known(old(Model()), addr) ==> time >= 0)))
    {
      AttemptKeeps(net, Model(), addr, countFailure, time);
      if Model().TimesOk() {
        AttemptTimes(net, Model(), addr, countFailure, time);
      }
      NoteAttempt(addr, countFailure, time);
    }

    method NoteConnected(addr: Service, time: int)
      modifies this`mapInfo
      ensures Model() == Ops.Connected(old(Model()), addr, time)
    {
      var id := Find(addr.ip);
      if id != -1 && mapInfo[id].addr == addr {
        if time - mapInfo[id].stats.time > 20 * 60 {
          SetStats(id, mapInfo[id].stats.(time := time));
        } else {
          assert mapInfo == mapInfo[id := mapInfo[id]];
        }
      }
    }

    method Connected(addr: Service, time: int)
      requires Sound()
      modifies this`mapInfo
      ensures Model() == Ops.Connected(old(Model()), addr, time)
      ensures Sound() && (old(Valid()) ==> Valid())
    {
      ConnectedKeeps(net, Model(), addr, time);
      if Model().TimesOk() {
        ConnectedTimes(Model(), addr, time);
      }
      NoteConnected(addr, time);
    }

    method NoteServices(addr: Service, services: bv64)
      modifies this`mapInfo
      ensures Model() == Ops.SetServices(old(Model()), addr, services)
    {
      var id := Find(addr.ip);
      if id != -1 && mapInfo[id].addr == addr {
        SetStats(id, mapInfo[id].stats.(services := services));
      }
    }

    method SetServices(addr: Service, services: bv64)
      requires Sound()
      modifies this`mapInfo
      ensures Model() == Ops.SetServices(old(Model()), addr, services)
      ensures Sound() && (old(Valid()) ==> Valid())
    {
      SetServicesKeeps(net, Model(), addr, services);
      if Model().TimesOk() {
        SetServicesTimes(Model(), addr, services);
      }
      NoteServices(addr, services);
    }

    method DrawTo(n: nat, draw: nat -> nat)
      requires Shape() && Model().Structured(net) && n < |random|
      modifies this
      ensures Model() == Ops.Draw(old(Model()), n, draw)
    {
      var j := if n <= draw(n) < |random| then draw(n) else n;
      RandomIsKnown(Model(), n);
      RandomIsKnown(Model(), j);
      SwapRandom(n, j);
    }

    method GetAddr(now: int, draw: nat -> nat) returns (reply: seq<Info>)
      requires Sound()
      modifies this
      ensures Ops.AddrReply(Model(), reply) == Ops.GetAddr(old(Model()), now, draw)
      ensures Reply.IsReply(old(Model()), reply, now)
      ensures Sound() && (old(Valid()) ==> Valid())
    {
      ghost var s := Model();
      Reply.GetAddrReplies(net, s, now, draw);
      if s.TimesOk() {
        GetAddrTimes(net, s, now, draw);
      }
      var limit := Ops.GetAddrLimit(|random|);
      reply := [];
      var n := 0;
      while n < |random| && |reply| < limit
        invariant Sound() && 0 <= n
        invariant Ops.GetAddr(s, now, draw) == Ops.GetAddrFrom(Model(), n, reply, limit, now, draw)
        decreases |random| - n
      {
        ghost var t := Model();
        DrawFine(net, t, n, draw);
        DrawTo(n, draw);
        RandomIsKnown(Model(), n);
        assert random[n] in mapInfo;
        if !IsTerrible(mapInfo[random[n]].stats, now) {
          reply := reply + [mapInfo[random[n]]];
        }
        n := n + 1;
      }
    }

    method ResolveCollisions(now: int, start: nat)
      requires Sound()
      modifies this, vvNew, vvTried
      ensures Model() == Ops.ResolveCollisions(net, old(Model()), now)
      ensures Collisions.Settled(net, old(Model()), Model(), now)
      ensures Sound() && (old(Valid()) ==> Valid())
    {
      ghost var s := Model();
      Collisions.ResolveSettles(net, s, now);
      if s.TimesOk() {
        ResolveFromTimes(net, s, s.collisions, now);
      }
      var pending := collisions;
      while pending != {}
        invariant Sound()
        invariant Ops.ResolveCollisions(net, s, now) == Ops.ResolveFrom(net, Model(), pending, now)
        decreases pending
      {
        var id := LeastOf(pending);
        ResolveOneKeeps(net, Model(), id, now);
        ResolveOne(id, now, start);
        pending := pending - {id};
      }
    }

    /** What becomes of the pending collision id. */
    method Judge(id: int, now: int) returns (verdict: Ops.Verdict)
      requires Sound()
      ensures verdict == Ops.Judge(net, Model(), id, now)
    {
      if id !in mapInfo { return Ops.Drop; }
      var a := mapInfo[id].addr;
      var b := net.triedBucket(key, a);
      var p := net.position(key, false, b, a);
      if !net.isValid(a.ip) { return Ops.Drop; }
      if vvTried[b, p] == -1 { return Ops.Swap; }
      assert vvTried[b, p] == Model().triedTab[Slot(b, p)];
      var rival := mapInfo[vvTried[b, p]].stats;
      if now - rival.lastSuccess < REPLACEMENT_HOURS * (60 * 60) { return Ops.Drop; }
      if now - rival.lastTry < REPLACEMENT_HOURS * (60 * 60) && now - rival.lastTry > 60 { return Ops.Swap; }
      return Ops.Keep;
    }

    method ResolveOne(id: int, now: int, start: nat)
      requires Sound()
      modifies this, vvNew, vvTried
      ensures Model() == Ops.ResolveOne(net, old(Model()), id, now)
    {
      var verdict := Judge(id, now);
      if verdict == Ops.Swap {
        Good(mapInfo[id].addr, false, now, start);
      }
      if verdict != Ops.Keep {
        collisions := collisions - {id};
      }
    }

    /** choice is the pending collision picked at random. */
    method SelectTriedCollision(choice: int) returns (info: Info)
      requires Sound()
      modifies this
      ensures Ops.Selection(Model(), info) == Ops.SelectTriedCollision(net, old(Model()), choice)
      ensures Sound() && (old(Valid()) ==> Valid()) && mapInfo == old(mapInfo)
    {
      SelectKeeps(net, Model(), choice);
      if choice !in collisions { return Ops.DEFAULT_INFO; }
      if choice !in mapInfo {
        collisions := collisions - {choice};
        return Ops.DEFAULT_INFO;
      }
      var b := net.triedBucket(key, mapInfo[choice].addr);
      var p := net.position(key, false, b, mapInfo[choice].addr);
      assert Slot(b, p) in Model().triedTab && vvTried[b, p] == Model().triedTab[Slot(b, p)];
      info := mapInfo[vvTried[b, p]];
    }
  }

  lemma RandomIsKnown(s: State, n: nat)
    requires s.RandomIndexed() && n < |s.random|
    ensures s.random[n] in s.info
  {
  }

  method LeastOf(s: set<int>) returns (m: int)
    requires s != {}
    ensures m == Min(s)
  {
    assert (forall x :: x !in s) ==> s == {};
    m :| m in s;
    var rest := s - {m};
    while rest != {}
      invariant m in s && rest <= s && forall x :: x in s && x !in rest ==> m <= x
    {
      assert (forall x :: x !in rest) ==> rest == {};
      var x :| x in rest;
      if x < m { m := x; }
      rest := rest - {x};
    }
  }

  function Probe(n: nat, start: nat): (b: NewIndex) { (n + start) % NEW_BUCKET_COUNT }

  lemma ProbesCover(start: nat, held: set<int>)
    requires forall b :: b in held ==> 0 <= b < NEW_BUCKET_COUNT
    requires forall m :: 0 <= m < NEW_BUCKET_COUNT ==> Probe(m, start) !in held
    ensures held == {}
  {
    forall b | 0 <= b < NEW_BUCKET_COUNT
      ensures b !in held
    {
      assert Probe((b - start) % NEW_BUCKET_COUNT, start) == b;
    }
  }

  lemma HeldAt(s: State, net: Net, a: Service, id: int, b: NewIndex)
    ensures b in s.Buckets(net, a, id) <==> s.NewSlot(net, a, b) in s.newTab && s.newTab[s.NewSlot(net, a, b)] == id
  {
  }

  /** An untried entry is in some new bucket, so the search for one never fails. */
  lemma HeldSomewhere(net: Net, s: State, id: int)
    requires s.Structured(net) && id in s.info && !s.info[id].inTried
    ensures s.Buckets(net, s.info[id].addr, id) != {}
  {
    assert s.info[id].refCount == |s.Buckets(net, s.info[id].addr, id)|;
  }

  lemma IdsAreNat(s: State, id: int)
    requires s.AddrIndexed() && id in s.info
    ensures id >= 0
  {
  }

  // ---- emptying the new buckets one by one

  ghost function DropOne(net: Net, s: State, id: int, bucket: NewIndex): State
    requires id in s.info
  {
    var k := s.NewSlot(net, s.info[id].addr, bucket);
    if k in s.newTab && s.newTab[k] == id then Unref(s, k) else s
  }

  ghost function Below(held: set<int>, n: int): set<int> { set b | b in held && b < n }

  ghost function StripBelow(net: Net, s: State, id: int, n: int): State
    requires id in s.info
  {
    var held := Below(s.Buckets(net, s.info[id].addr, id), n);
    s.(newTab := s.newTab - Ops.SlotsOf(net, s, s.info[id].addr, held),
       info := s.info[id := s.info[id].(refCount := s.info[id].refCount - |held|)])
  }

  lemma StripNone(net: Net, s: State, id: int)
    requires id in s.info
    ensures StripBelow(net, s, id, 0) == s
  {
    assert Below(s.Buckets(net, s.info[id].addr, id), 0) == {};
    assert StripBelow(net, s, id, 0).newTab == s.newTab;
    assert StripBelow(net, s, id, 0).info == s.info;
  }

  /** Bucket number bucket holds id, so it is taken out of that too. */
  lemma StripTaken(net: Net, s: State, id: int, bucket: NewIndex, k: Slot)
    requires id in s.info && k == s.NewSlot(net, s.info[id].addr, bucket) && k in s.newTab && s.newTab[k] == id
    ensures k in StripBelow(net, s, id, bucket).newTab
    ensures Unref(StripBelow(net, s, id, bucket), k) == StripBelow(net, s, id, bucket + 1)
  {
    var a := s.info[id].addr;
    var held := s.Buckets(net, a, id);
    assert k !in Ops.SlotsOf(net, s, a, Below(held, bucket));
    var next := StripBelow(net, s, id, bucket + 1);
    assert Below(held, bucket + 1) == Below(held, bucket) + {bucket};
    assert Ops.SlotsOf(net, s, a, Below(held, bucket + 1)) == Ops.SlotsOf(net, s, a, Below(held, bucket)) + {k};
    assert next.newTab == StripBelow(net, s, id, bucket).newTab - {k};
    assert next.info == Unref(StripBelow(net, s, id, bucket), k).info;
  }

  /** What looking at one more bucket adds to the slots taken from id. */
  lemma StripNext(net: Net, s: State, id: int, bucket: NewIndex)
    requires id in s.info
    ensures DropOne(net, StripBelow(net, s, id, bucket), id, bucket) == StripBelow(net, s, id, bucket + 1)
  {
    var k := s.NewSlot(net, s.info[id].addr, bucket);
    if k in s.newTab && s.newTab[k] == id {
      StripTaken(net, s, id, bucket, k);
    } else {
      var held := s.Buckets(net, s.info[id].addr, id);
      assert Below(held, bucket + 1) == Below(held, bucket);
    }
  }

  /** Taking id out of the first n buckets, one after the other. */
  ghost function DropEach(net: Net, s: State, id: int, n: nat): (r: State)
    requires id in s.info && n <= NEW_BUCKET_COUNT
    ensures id in r.info
  {
    if n == 0 then s else DropOne(net, DropEach(net, s, id, n - 1), id, n - 1)
  }

  lemma {:induction false} DropEachIsBelow(net: Net, s: State, id: int, n: nat)
    requires id in s.info && n <= NEW_BUCKET_COUNT
    ensures DropEach(net, s, id, n) == StripBelow(net, s, id, n)
  {
    if n == 0 {
      StripNone(net, s, id);
    } else {
      DropEachIsBelow(net, s, id, n - 1);
      StripNext(net, s, id, n - 1);
    }
  }

  lemma DropEachStrips(net: Net, s: State, id: int)
    requires id in s.info
    ensures DropEach(net, s, id, NEW_BUCKET_COUNT).(nNew := s.nNew - 1) == Ops.Strip(net, s, id)
  {
    DropEachIsBelow(net, s, id, NEW_BUCKET_COUNT);
    assert Below(s.Buckets(net, s.info[id].addr, id), NEW_BUCKET_COUNT) == s.Buckets(net, s.info[id].addr, id);
  }
}
