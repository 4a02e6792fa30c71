/** Writing a manager out and reading one back, in place, by the loops of the stream format. */
module AddrManFile {
  import opened AddrManState
  import opened AddrManDisk
  import opened AddrManRoundTrip
  import opened IntSets
  import opened AddrMan

  // ---- Unserialize

  /** Marks every slot of a table as free. */
  method FreeAll(t: array2<int>)
    modifies t
    ensures Occupied(t) == map[]
  {
    for b := 0 to t.Length0
      invariant forall c, p :: 0 <= c < b && 0 <= p < t.Length1 ==> t[c, p] == -1
    {
      for p := 0 to t.Length1
        invariant forall c, q :: 0 <= c < b && 0 <= q < t.Length1 ==> t[c, q] == -1
        invariant forall q :: 0 <= q < p ==> t[b, q] == -1
      {
        t[b, p] := -1;
      }
    }
  }

  /** Everything but the collisions is forgotten. */
  method Clear(m: Manager, randomKey: Key)
    requires m.Shape()
    modifies m, m.vvNew, m.vvTried
    ensures m.Model() == Cleared(old(m.Model()), randomKey)
  {
    FreeAll(m.vvNew);
    FreeAll(m.vvTried);
    m.key := randomKey;
    m.idCount, m.mapInfo, m.mapAddr, m.random := 0, map[], map[], [];
    m.nTried, m.nNew, m.lastGood := 0, 0, 1;
  }

  /** Gives a new entry the slot that its source selects, if that is free. */
  method GiveHome(m: Manager, id: nat)
    requires m.Shape() && id in m.mapInfo
    modifies m`mapInfo, m.vvNew
    ensures var t := old(m.Model()); var k := Ops.HomeSlot(m.net, t, t.info[id]);
      m.Model() == if k in t.newTab then t else AddRef(t, k, id)
  {
    var info := m.mapInfo[id];
    var b := m.net.newBucket(m.key, info.addr.ip, info.source);
    var p := m.net.position(m.key, true, b, info.addr);
    if m.vvNew[b, p] == -1 {
      Put(m.vvNew, b, p, id);
      m.mapInfo := m.mapInfo[id := info.(refCount := info.refCount + 1)];
    }
  }

  method ReadNew(m: Manager, d: Dump, id: nat)
    requires m.Shape() && id < |d.newEntries|
    modifies m, m.vvNew
    ensures m.Model() == LoadNewOne(m.net, old(m.Model()), d, id, d.newEntries[id])
  {
    var v := d.newEntries[id];
    m.mapInfo := m.mapInfo[id := Load(v, false, |m.random|)];
    m.mapAddr := m.mapAddr[v.addr.ip := id];
    m.random := m.random + [id];
    if d.version != 1 || BucketCount(d) != NEW_BUCKET_COUNT {
      GiveHome(m, id);
    }
  }

  /** Enters a tried entry at its free slot (b, p). */
  method EnterTried(m: Manager, v: Saved, b: TriedIndex, p: Position)
    requires m.Shape() && Slot(b, p) !in Occupied(m.vvTried)
    modifies m, m.vvTried
    ensures var s := old(m.Model());
      m.Model() == Append(s, Load(v, true, |s.random|)).(triedTab := Marked(s.triedTab, Slot(b, p), s.idCount))
  {
    var id := m.idCount;
    var info := Load(v, true, |m.random|);
    m.random := m.random + [id];
    m.mapInfo := m.mapInfo[id := info];
    m.mapAddr := m.mapAddr[v.addr.ip := id];
    Put(m.vvTried, b, p, id);
    m.idCount := id + 1;
  }

  method ReadTried(m: Manager, v: Saved) returns (lost: bool)
    requires m.Shape()
    modifies m, m.vvTried
    ensures TriedRead(m.net, old(m.Model()), v, m.Model(), lost)
  {
    var b := m.net.triedBucket(m.key, v.addr);
    var p := m.net.position(m.key, false, b, v.addr);
    lost := m.vvTried[b, p] != -1;
    if !lost {
      EnterTried(m, v, b, p);
    }
  }

  method ReadIndex(m: Manager, d: Dump, b: nat, index: int)
    requires m.Shape() && (TrustsBuckets(d) ==> b < NEW_BUCKET_COUNT)
    modifies m, m.vvNew
    ensures m.Model() == ClaimOne(m.net, old(m.Model()), d, b, index)
  {
    if 0 <= index < d.nNew && index in m.mapInfo {
      var info := m.mapInfo[index];
      var p := m.net.position(m.key, true, b, info.addr);
      if d.version == 1 && BucketCount(d) == NEW_BUCKET_COUNT && m.vvNew[b, p] == -1 &&
        info.refCount < NEW_BUCKETS_PER_ADDRESS {
        m.mapInfo := m.mapInfo[index := info.(refCount := info.refCount + 1)];
        Put(m.vvNew, b, p, index);
      }
    }
  }

  /** t is s with the first n new entries of d read. */
  ghost predicate NewsRead(net: Net, s: State, d: Dump, n: nat, t: State) {
    n <= |d.newEntries| && t == LoadNew(net, s, d, n)
  }

  method ReadNext(m: Manager, d: Dump, n: nat, ghost s: State)
    requires m.Shape() && n < |d.newEntries| && NewsRead(m.net, s, d, n, m.Model())
    modifies m, m.vvNew
    ensures NewsRead(m.net, s, d, n + 1, m.Model())
  {
    ReadNew(m, d, n);
  }

  method ReadNews(m: Manager, d: Dump)
    requires m.Shape()
    modifies m, m.vvNew
    ensures NewsRead(m.net, old(m.Model()), d, |d.newEntries|, m.Model())
  {
    ghost var s := m.Model();
    ghost var net := m.net;
    var n := 0;
    while n < |d.newEntries|
      invariant 0 <= n <= |d.newEntries|
      invariant NewsRead(net, s, d, n, m.Model())
      decreases |d.newEntries| - n
    {
      ReadNext(m, d, n, s);
      n := n + 1;
    }
  }

  /** t is s with one more tried entry read, or with that entry lost; the count is left for later. */
  ghost predicate TriedRead(net: Net, s: State, v: Saved, t: State, lost: bool) {
    t.nTried == s.nTried && t.(nTried := s.nTried - if lost then 1 else 0) == LoadTriedOne(net, s, v)
  }

  /** t is s with the first n tried entries read, but for the nLost that were lost. */
  ghost predicate Reading(net: Net, s: State, d: Dump, n: nat, t: State, nLost: int) {
    n <= |d.triedEntries| && t.nTried == s.nTried && t.(nTried := s.nTried - nLost) == LoadTried(net, s, d, n)
  }

  /** The count of tried entries plays no part in reading them. */
  lemma ReadingNext(net: Net, s: State, d: Dump, n: nat, t: State, nLost: int, u: State, lost: bool)
    requires n < |d.triedEntries| && Reading(net, s, d, n, t, nLost) && TriedRead(net, t, d.triedEntries[n], u, lost)
    ensures Reading(net, s, d, n + 1, u, nLost + if lost then 1 else 0)
  {
  }

  method ReadNextTried(m: Manager, d: Dump, n: nat, nLost: int, ghost s: State) returns (newLost: int)
    requires m.Shape() && n < |d.triedEntries| && Reading(m.net, s, d, n, m.Model(), nLost)
    modifies m, m.vvTried
    ensures Reading(m.net, s, d, n + 1, m.Model(), newLost)
  {
    ghost var t := m.Model();
    var lost := ReadTried(m, d.triedEntries[n]);
    newLost := nLost + if lost then 1 else 0;
    ReadingNext(m.net, s, d, n, t, nLost, m.Model(), lost);
  }

  method ReadTrieds(m: Manager, d: Dump)
    requires m.Shape()
    modifies m, m.vvTried
    ensures m.Model() == LoadTried(m.net, old(m.Model()), d, |d.triedEntries|)
  {
    ghost var s := m.Model();
    ghost var net := m.net;
    var nLost, n := 0, 0;
    while n < |d.triedEntries|
      invariant 0 <= n <= |d.triedEntries|
      invariant Reading(net, s, d, n, m.Model(), nLost)
      decreases |d.triedEntries| - n
    {
      nLost := ReadNextTried(m, d, n, nLost, s);
      n := n + 1;
    }
    m.nTried := m.nTried - nLost;
  }

  method ReadRow(m: Manager, d: Dump, b: nat, row: seq<int>)
    requires m.Shape() && (TrustsBuckets(d) ==> b < NEW_BUCKET_COUNT)
    modifies m, m.vvNew
    ensures m.Model() == ClaimRow(m.net, old(m.Model()), d, b, row)
  {
    ghost var s := m.Model();
    for n := 0 to |row|
      invariant m.Model() == ClaimRow(m.net, s, d, b, row[..n])
    {
      assert row[..n + 1][..n] == row[..n];
      ReadIndex(m, d, b, row[n]);
    }
    assert row[..|row|] == row;
  }

  method ReadRows(m: Manager, d: Dump)
    requires m.Shape() && WellFormed(d)
    modifies m, m.vvNew
    ensures m.Model() == ClaimAll(m.net, old(m.Model()), d, |d.buckets|)
  {
    ghost var s := m.Model();
    for b := 0 to |d.buckets|
      invariant m.Model() == ClaimAll(m.net, s, d, b)
    {
      ReadRow(m, d, b, d.buckets[b]);
    }
  }

  /** Deletes the entries that ended up in no table. */
  method PruneHomeless(m: Manager)
    requires m.Shape()
    modifies m
    ensures m.Model() == Prune(old(m.Model()), Homeless(old(m.Model())))
  {
    var pending := set id | id in m.mapInfo && !m.mapInfo[id].inTried && m.mapInfo[id].refCount == 0;
    ghost var s, all := m.Model(), pending;
    while pending != {}
      invariant Prune(s, all) == Prune(m.Model(), pending)
      decreases pending
    {
      var id := LeastOf(pending);
      if CanDeleteNow(m, id) {
        m.Delete(id);
      }
      pending := pending - {id};
    }
  }

  predicate CanDeleteNow(m: Manager, id: int)
    reads m
  {
    && id in m.mapInfo && !m.mapInfo[id].inTried && m.mapInfo[id].refCount == 0
    && 0 <= m.mapInfo[id].randomPos < |m.random|
    && m.random[m.mapInfo[id].randomPos] in m.mapInfo && m.random[|m.random| - 1] in m.mapInfo
  }

  /** Reads a dump over a manager; a key of the wrong size is refused once the manager is cleared. */
  method Read(m: Manager, d: Dump, randomKey: Key) returns (ok: bool)
    requires m.Shape() && WellFormed(d)
    modifies m, m.vvNew, m.vvTried
    ensures m.Model() == Unserialize(m.net, old(m.Model()), d, randomKey)
    ensures ok <==> d.keySize == KEY_SIZE
  {
    Clear(m, randomKey);
    if d.keySize != KEY_SIZE {
      return false;
    }
    Rebuild(m, d);
    ok := true;
  }

  method Rebuild(m: Manager, d: Dump)
    requires m.Shape() && WellFormed(d)
    modifies m, m.vvNew, m.vvTried
    ensures m.Model() == AddrManDisk.Rebuild(m.net, old(m.Model()), d)
  {
    ghost var s := m.Model();
    m.key, m.nNew, m.nTried := d.key, d.nNew, d.nTried;
    assert m.Model() == Started(s, d);
    ReadNews(m, d);
    ghost var t1 := LoadNew(m.net, Started(s, d), d, |d.newEntries|).(idCount := d.nNew);
    m.idCount := d.nNew;
    assert m.Model() == t1;
    ReadTrieds(m, d);
    ReadRows(m, d);
    PruneHomeless(m);
  }

  // ---- Serialize

  /** done lists, in order, the chosen ids that are not in todo; what is in todo comes later. */
  ghost predicate Listing(chosen: set<int>, done: seq<int>, todo: set<int>) {
    && Increasing(done)
    && (forall x :: x in done <==> x in chosen && x !in todo)
    && forall x, y :: x in chosen && x !in todo && y in todo ==> x < y
  }

  lemma ListingNext(chosen: set<int>, done: seq<int>, todo: set<int>, id: int)
    requires id in todo && (forall y :: y in todo ==> id <= y) && Listing(chosen, done, todo)
    ensures Listing(chosen, if id in chosen then done + [id] else done, todo - {id})
  {
    var after := if id in chosen then done + [id] else done;
    forall i, j | 0 <= i < j < |after|
      ensures after[i] < after[j]
    {
      assert i < |done| ==> done[i] in done;
    }
  }

  /** The chosen ids before the next one are those already listed. */
  lemma RankIsDone(chosen: set<int>, q: seq<int>, done: seq<int>, todo: set<int>, id: int)
    requires id in todo && (forall y :: y in todo ==> id <= y) && Listing(chosen, done, todo)
    requires forall x :: x in q <==> x in chosen
    ensures Rank(q, id) == |done|
  {
    var below := set x | x in q && x < id;
    forall x
      ensures x in below <==> x in done
    {
    }
    DistinctSize(done, below);
  }

  /** The entries in the new table, in order of id, and every id's rank among them. */
  method WriteNew(info: map<int, Info>, ghost chosen: set<int>, ghost q: seq<int>)
    returns (entries: seq<Saved>, ranks: map<int, int>)
    requires chosen == (set id | id in info && info[id].refCount != 0) && Increasing(q)
    requires forall x :: x in q <==> x in chosen
    ensures |entries| == |q| && forall j :: 0 <= j < |q| ==> q[j] in info && entries[j] == Save(info[q[j]])
    ensures ranks.Keys == info.Keys && forall id :: id in ranks ==> ranks[id] == Rank(q, id)
  {
    var todo := info.Keys;
    entries, ranks := [], map[];
    ghost var done: seq<int> := [];
    while todo != {}
      invariant todo <= info.Keys && ranks.Keys == info.Keys - todo && Listing(chosen, done, todo)
      invariant SavedAs(info, done, entries)
      invariant forall id :: id in ranks ==> ranks[id] == Rank(q, id)
      decreases todo
    {
      var id := LeastOf(todo);
      RankIsDone(chosen, q, done, todo, id);
      ListingNext(chosen, done, todo, id);
      ranks := ranks[id := |entries|];
      if info[id].refCount != 0 {
        entries := entries + [Save(info[id])];
        done := done + [id];
      }
      todo := todo - {id};
    }
    SameList(done, q);
  }

  /** The entries are those of the listed ids. */
  ghost predicate SavedAs(info: map<int, Info>, done: seq<int>, entries: seq<Saved>) {
    |entries| == |done| && forall j :: 0 <= j < |done| ==> done[j] in info && entries[j] == Save(info[done[j]])
  }

  method WriteTried(info: map<int, Info>, ghost chosen: set<int>, ghost q: seq<int>) returns (entries: seq<Saved>)
    requires chosen == (set id | id in info && info[id].inTried) && Increasing(q) && forall x :: x in q <==> x in chosen
    ensures SavedAs(info, q, entries)
  {
    var todo := info.Keys;
    entries := [];
    ghost var done: seq<int> := [];
    while todo != {}
      invariant todo <= info.Keys && Listing(chosen, done, todo) && SavedAs(info, done, entries)
      decreases todo
    {
      var id := LeastOf(todo);
      ListingNext(chosen, done, todo, id);
      if info[id].inTried {
        entries := entries + [Save(info[id])];
        done := done + [id];
      }
      todo := todo - {id};
    }
    SameList(done, q);
  }

  /** The new table's ids all have a rank. */
  ghost predicate Ranked(s: State, ranks: map<int, int>) {
    && (forall k :: k in s.newTab ==> s.newTab[k] in ranks)
    && forall id :: id in ranks ==> ranks[id] == Rank(NewOrder(s), id)
  }

  method WriteRow(vvNew: array2<int>, b: nat, ranks: map<int, int>, ghost s: State) returns (row: seq<int>)
    requires b < vvNew.Length0 && vvNew.Length1 == BUCKET_SIZE && s.newTab == Occupied(vvNew) && Ranked(s, ranks)
    ensures row == Row(s, b, BUCKET_SIZE)
  {
    row := [];
    for p := 0 to BUCKET_SIZE
      invariant row == Row(s, b, p)
    {
      if vvNew[b, p] != -1 {
        assert s.newTab[Slot(b, p)] == vvNew[b, p];
        row := row + [ranks[vvNew[b, p]]];
      }
    }
  }

  method WriteRows(vvNew: array2<int>, ranks: map<int, int>, ghost s: State) returns (rows: seq<seq<int>>)
    requires vvNew.Length0 == NEW_BUCKET_COUNT && vvNew.Length1 == BUCKET_SIZE && s.newTab == Occupied(vvNew)
    requires Ranked(s, ranks)
    ensures |rows| == NEW_BUCKET_COUNT && forall b :: 0 <= b < NEW_BUCKET_COUNT ==> rows[b] == Row(s, b, BUCKET_SIZE)
  {
    rows := [];
    for b := 0 to NEW_BUCKET_COUNT
      invariant |rows| == b && forall c :: 0 <= c < b ==> rows[c] == Row(s, c, BUCKET_SIZE)
    {
      var row := WriteRow(vvNew, b, ranks, s);
      rows := rows + [row];
    }
  }

  lemma IsSerialized(s: State, d: Dump)
    requires d.version == VERSION && d.keySize == KEY_SIZE && d.key == s.key && d.nNew == s.nNew && d.nTried == s.nTried
    requires d.bucketCount == Flipped(NEW_BUCKET_COUNT)
    requires SavedAs(s.info, NewOrder(s), d.newEntries) && SavedAs(s.info, TriedOrder(s), d.triedEntries)
    requires |d.buckets| == NEW_BUCKET_COUNT
    requires forall b :: 0 <= b < NEW_BUCKET_COUNT ==> d.buckets[b] == Row(s, b, BUCKET_SIZE)
    ensures d == Serialize(s)
  {
    var e := Serialize(s);
    assert d.newEntries == e.newEntries;
    assert d.triedEntries == e.triedEntries;
    assert d.buckets == e.buckets;
  }

  /** Writes the manager out: as many entries of each kind as it announces. */
  method Write(m: Manager) returns (d: Dump)
    requires m.Valid()
    ensures d == Serialize(m.Model())
    ensures |d.newEntries| == d.nNew == m.nNew && |d.triedEntries| == d.nTried == m.nTried
  {
    TableIdsKnown(m.net, m.Model());
    AllIsListed(m.net, m.Model());
    d := WriteParts(m);
  }

  /** What m writes, n reads: n knows what m knew, where m kept it, whatever n held before. */
  method Restart(m: Manager, n: Manager, randomKey: Key) returns (ok: bool)
    requires m.Valid() && n.Shape() && n.net == m.net
    modifies n, n.vvNew, n.vvTried
    ensures ok && IsRestart(n.net, old(m.Model()), old(n.collisions), n.Model())
    ensures n.Valid() <==> MayPend(n.net, old(m.Model()), old(n.collisions))
    ensures old(n.collisions) == {} ==> n.Valid()
  {
    var d := Write(m);
    RoundTrip(m.net, m.Model(), n.Model(), randomKey);
    RestartExactly(m.net, m.Model(), n.Model(), randomKey);
    ok := Read(n, d, randomKey);
  }

  /** A manager that starts from a file: what m wrote, read into a new one. */
  method Reload(m: Manager, randomKey: Key) returns (n: Manager)
    requires m.Valid()
    ensures fresh(n) && n.Valid() && n.net == m.net && IsRestart(m.net, old(m.Model()), {}, n.Model())
  {
    n := new Manager(m.net, randomKey);
    var ok := Restart(m, n, randomKey);
  }

  method WriteParts(m: Manager) returns (d: Dump)
    requires m.Shape() && forall k :: k in m.Model().newTab ==> m.Model().newTab[k] in m.mapInfo
    ensures d == Serialize(m.Model())
  {
    ghost var s := m.Model();
    var newEntries, ranks := WriteNew(m.mapInfo, (set id | id in s.info && s.info[id].refCount != 0), NewOrder(s));
    var triedEntries := WriteTried(m.mapInfo, s.TriedIds(), TriedOrder(s));
    var rows := WriteRows(m.vvNew, ranks, s);
    d := Dump(VERSION, KEY_SIZE, m.key, m.nNew, m.nTried, Flipped(NEW_BUCKET_COUNT), newEntries, triedEntries, rows);
    IsSerialized(s, d);
  }

  lemma TableIdsKnown(net: Net, s: State)
    requires s.Inv(net)
    ensures forall k :: k in s.newTab ==> s.newTab[k] in s.info
  {
  }
}
