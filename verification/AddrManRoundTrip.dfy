/**
 Reading back what was saved loses nothing: the rebuilt manager is the saved one up to a
 renaming of ids, and it is consistent again.
 */
module AddrManRoundTrip {
  import opened AddrManState
  import opened AddrManSteps
  import opened AddrManDisk
  import opened IntSets

  /** The saved ids in the order in which they are read back: position is the new id. */
  ghost function All(s: State): seq<int> { NewOrder(s) + TriedOrder(s) }

  /** Reading order lists each entry once: the new ones first, then the tried ones. */
  ghost predicate Listed(s: State, all: seq<int>, n: nat) {
    && n == s.nNew && n <= |all| == s.nNew + s.nTried
    && (forall j :: 0 <= j < |all| ==> all[j] in s.info && (s.info[all[j]].inTried <==> n <= j))
    && (forall id :: id in s.info ==> id in all)
    && (forall i, j :: 0 <= i < j < |all| ==> all[i] != all[j])
  }

  lemma RefCountSays(net: Net, s: State)
    requires s.Consistent(net)
    ensures forall id :: id in s.info ==> (s.info[id].refCount != 0 <==> !s.info[id].inTried)
  {
    forall id | id in s.info
      ensures s.info[id].refCount != 0 <==> !s.info[id].inTried
    {
      if s.info[id].inTried {
        assert s.Buckets(net, s.info[id].addr, id) == {};
      }
    }
  }

  lemma ReferencedIsNew(s: State)
    requires forall id :: id in s.info ==> (s.info[id].refCount != 0 <==> !s.info[id].inTried)
    ensures NewOrder(s) == Ascending(s.NewIds())
  {
    var referenced := set id | id in s.info && s.info[id].refCount != 0;
    forall id
      ensures id in referenced <==> id in s.NewIds()
    {
    }
    assert referenced == s.NewIds();
  }

  /** The new ids followed by the tried ids list every entry once. */
  lemma JoinLists(s: State, a: seq<int>, b: seq<int>)
    requires |a| == s.nNew && |b| == s.nTried
    requires forall id :: id in a <==> id in s.NewIds()
    requires forall id :: id in b <==> id in s.TriedIds()
    requires forall i, j :: 0 <= i < j < |a| ==> a[i] < a[j]
    requires forall i, j :: 0 <= i < j < |b| ==> b[i] < b[j]
    ensures Listed(s, a + b, |a|)
  {
    var all := a + b;
    forall j | 0 <= j < |all|
      ensures all[j] in s.info && (s.info[all[j]].inTried <==> |a| <= j)
    {
      assert if j < |a| then all[j] in a else b[j - |a|] in b;
    }
    forall id | id in s.info
      ensures id in all
    {
      assert id in a || id in b;
    }
  }

  lemma AllIsListed(net: Net, s: State)
    requires s.Consistent(net)
    ensures |NewOrder(s)| == s.nNew && |TriedOrder(s)| == s.nTried
    ensures Listed(s, All(s), |NewOrder(s)|)
    ensures forall i, j :: 0 <= i < j < s.nNew ==> All(s)[i] < All(s)[j]
  {
    RefCountSays(net, s);
    ReferencedIsNew(s);
    JoinLists(s, NewOrder(s), TriedOrder(s));
  }

  lemma RankIsIndex(q: seq<int>, j: nat)
    requires j < |q| && forall a, b :: 0 <= a < b < |q| ==> q[a] < q[b]
    ensures Rank(q, q[j]) == j
  {
    var below := set x | x in q && x < q[j];
    forall x
      ensures x in below <==> x in q[..j]
    {
      if x in below {
        var a :| 0 <= a < |q| && q[a] == x;
        assert a < j;
        assert q[..j][a] == x;
      }
    }
    DistinctSize(q[..j], below);
  }

  // ---- loading the entries

  /** The saved entries in reading order. */
  ghost function Entries(s: State, all: seq<int>): (src: seq<Info>)
    requires forall j :: 0 <= j < |all| ==> all[j] in s.info
    ensures |src| == |all| && forall j :: 0 <= j < |all| ==> src[j] == s.info[all[j]]
  {
    seq(|all|, j requires 0 <= j < |all| => s.info[all[j]])
  }

  /** No two entries have the same network address. */
  ghost predicate DistinctAddrs(src: seq<Info>) {
    forall i, j {:trigger src[i].addr.ip, src[j].addr.ip} :: 0 <= i < j < |src| ==> src[i].addr.ip != src[j].addr.ip
  }

  /** The first n entries have been read back, under their positions. */
  ghost predicate Loaded(src: seq<Info>, t: State, n: nat) {
    && n <= |src| && |t.random| == n
    && (forall j :: j in t.info <==> 0 <= j < n)
    && (forall j :: 0 <= j < n ==> t.random[j] == j)
    && (forall j :: 0 <= j < n ==> t.info[j] == Load(Save(src[j]), src[j].inTried, j))
    && (forall a :: a in t.addr ==> 0 <= t.addr[a] < n && src[t.addr[a]].addr.ip == a)
    && (forall j :: 0 <= j < n ==> src[j].addr.ip in t.addr && t.addr[src[j].addr.ip] == j)
  }

  lemma EnterLoads(src: seq<Info>, t: State, n: nat)
    requires DistinctAddrs(src) && n < |src| && Loaded(src, t, n)
    ensures Loaded(src, Enter(t, n, Load(Save(src[n]), src[n].inTried, n)), n + 1)
  {
  }

  /** With usable buckets, a new entry is only entered. */
  lemma LoadsNext(net: Net, src: seq<Info>, u: State, d: Dump, n: nat)
    requires n < |src| && n < |d.newEntries| && TrustsBuckets(d) && |u.random| == n
    requires d.newEntries[n] == Save(src[n]) && !src[n].inTried
    ensures LoadNewOne(net, u, d, n, d.newEntries[n]) == Enter(u, n, Load(Save(src[n]), src[n].inTried, n))
  {
  }

  /** u is t with n saved new entries in it. */
  ghost predicate NewsLoaded(src: seq<Info>, t: State, n: nat, u: State) {
    Loaded(src, u, n) && u == t.(info := u.info, addr := u.addr, random := u.random)
  }

  lemma LoadNewNext(net: Net, src: seq<Info>, t: State, d: Dump, n: nat, u: State)
    requires DistinctAddrs(src) && TrustsBuckets(d)
    requires n < |d.newEntries| <= |src| && NewsLoaded(src, t, n, u)
    requires d.newEntries[n] == Save(src[n]) && !src[n].inTried
    ensures NewsLoaded(src, t, n + 1, LoadNewOne(net, u, d, n, d.newEntries[n]))
  {
    EnterLoads(src, u, n);
    LoadsNext(net, src, u, d, n);
  }

  lemma LoadNewLoads(net: Net, src: seq<Info>, t: State, d: Dump)
    requires DistinctAddrs(src) && Loaded(src, t, 0) && TrustsBuckets(d)
    requires |d.newEntries| <= |src|
    requires forall j :: 0 <= j < |d.newEntries| ==> d.newEntries[j] == Save(src[j]) && !src[j].inTried
    ensures NewsLoaded(src, t, |d.newEntries|, LoadNew(net, t, d, |d.newEntries|))
  {
    forall n: nat, u | n < |d.newEntries| && NewsLoaded(src, t, n, u)
      ensures NewsLoaded(src, t, n + 1, LoadNewOne(net, u, d, n, d.newEntries[n]))
    {
      LoadNewNext(net, src, t, d, n, u);
    }
    OverNew(net, t, d, |d.newEntries|, (n: nat, u) => NewsLoaded(src, t, n, u));
  }

  /** The tried slots of the entries from n0 on are all different. */
  ghost predicate DistinctSlots(net: Net, key: Key, src: seq<Info>, n0: nat) {
    forall i, j {:trigger SlotFor(net, key, src[i].addr), SlotFor(net, key, src[j].addr)} ::
      n0 <= i < j < |src| ==> SlotFor(net, key, src[i].addr) != SlotFor(net, key, src[j].addr)
  }

  function SlotFor(net: Net, key: Key, a: Service): Slot {
    Slot(net.triedBucket(key, a), net.position(key, false, net.triedBucket(key, a), a))
  }

  /** The tried table holds exactly the entries from n0 to n, each at its slot. */
  ghost predicate TriedLoaded(net: Net, src: seq<Info>, t: State, n0: nat, n: nat)
    requires n <= |src|
  {
    && (forall k :: k in t.triedTab ==> n0 <= t.triedTab[k] < n && k == SlotFor(net, t.key, src[t.triedTab[k]].addr))
    && (forall j :: n0 <= j < n ==>
      SlotFor(net, t.key, src[j].addr) in t.triedTab && t.triedTab[SlotFor(net, t.key, src[j].addr)] == j)
  }

  ghost predicate SavedTried(src: seq<Info>, n0: nat, entries: seq<Saved>) {
    && n0 + |entries| == |src|
    && forall j :: n0 <= j < |src| ==> entries[j - n0] == Save(src[j]) && src[j].inTried
  }

  lemma SavedTriedAt(src: seq<Info>, n0: nat, entries: seq<Saved>, m: nat)
    requires SavedTried(src, n0, entries) && m < |entries|
    ensures entries[m] == Save(src[n0 + m]) && src[n0 + m].inTried
  {
    assert entries[n0 + m - n0] == Save(src[n0 + m]);
  }

  /** u is t with the entries up to n read back, those from n0 on into the tried table. */
  ghost predicate TriedStage(net: Net, src: seq<Info>, t: State, u: State, n0: nat, n: nat) {
    && n0 <= n && Loaded(src, u, n) && TriedLoaded(net, src, u, n0, n)
    && u == t.(info := u.info, addr := u.addr, random := u.random, triedTab := u.triedTab, idCount := n)
  }

  /** u is t with m saved tried entries in it. */
  ghost predicate TriedsLoaded(net: Net, src: seq<Info>, t: State, n0: nat, m: nat, u: State) {
    TriedStage(net, src, t, u, n0, n0 + m)
  }

  lemma TriedsNext(net: Net, src: seq<Info>, t: State, d: Dump, n0: nat, m: nat, u: State)
    requires DistinctAddrs(src) && DistinctSlots(net, t.key, src, n0) && SavedTried(src, n0, d.triedEntries)
    requires m < |d.triedEntries| && TriedsLoaded(net, src, t, n0, m, u)
    ensures TriedsLoaded(net, src, t, n0, m + 1, LoadTriedOne(net, u, d.triedEntries[m]))
  {
    SavedTriedAt(src, n0, d.triedEntries, m);
    LoadTriedNext(net, src, t, u, n0, n0 + m, d.triedEntries[m]);
  }

  lemma LoadTriedLoads(net: Net, src: seq<Info>, t: State, d: Dump, n0: nat)
    requires DistinctAddrs(src) && DistinctSlots(net, t.key, src, n0)
    requires TriedStage(net, src, t, t, n0, n0) && SavedTried(src, n0, d.triedEntries)
    ensures TriedStage(net, src, t, LoadTried(net, t, d, |d.triedEntries|), n0, |src|)
  {
    forall m: nat, u | m < |d.triedEntries| && TriedsLoaded(net, src, t, n0, m, u)
      ensures TriedsLoaded(net, src, t, n0, m + 1, LoadTriedOne(net, u, d.triedEntries[m]))
    {
      TriedsNext(net, src, t, d, n0, m, u);
    }
    OverTried(net, t, d, |d.triedEntries|, (m: nat, u) => TriedsLoaded(net, src, t, n0, m, u));
  }

  lemma LoadTriedNext(net: Net, src: seq<Info>, t: State, u: State, n0: nat, n: nat, v: Saved)
    requires DistinctAddrs(src) && DistinctSlots(net, t.key, src, n0)
    requires n < |src| && TriedStage(net, src, t, u, n0, n) && src[n].inTried && v == Save(src[n])
    ensures TriedStage(net, src, t, LoadTriedOne(net, u, v), n0, n + 1)
  {
    var w := Enter(u, n, Load(v, true, n));
    LoadTriedIs(net, src, u, n0, n, v);
    EnterLoads(src, u, n);
    SlotNext(net, src, u, LoadTriedOne(net, u, v), n0, n);
    assert Loaded(src, w.(triedTab := u.triedTab[SlotFor(net, u.key, src[n].addr) := n], idCount := n + 1), n + 1);
  }

  /** The slot of a tried entry is free when it is read back. */
  lemma LoadTriedIs(net: Net, src: seq<Info>, u: State, n0: nat, n: nat, v: Saved)
    requires n0 <= n < |src| && DistinctSlots(net, u.key, src, n0) && TriedLoaded(net, src, u, n0, n)
    requires v == Save(src[n]) && u.idCount == n == |u.random|
    ensures LoadTriedOne(net, u, v)
      == Enter(u, n, Load(v, true, n)).(triedTab := u.triedTab[SlotFor(net, u.key, src[n].addr) := n], idCount := n + 1)
  {
    assert u.TriedSlot(net, v.addr) == SlotFor(net, u.key, src[n].addr);
  }

  lemma SlotNext(net: Net, src: seq<Info>, t: State, u: State, n0: nat, n: nat)
    requires n0 <= n < |src| && DistinctSlots(net, t.key, src, n0) && TriedLoaded(net, src, t, n0, n)
    requires u.key == t.key && u.triedTab == t.triedTab[SlotFor(net, t.key, src[n].addr) := n]
    ensures TriedLoaded(net, src, u, n0, n + 1)
  {
  }

  // ---- claiming the slots of the new table

  /** Slot k comes before position i of bucket b. */
  ghost predicate Before(k: Slot, b: int, i: int) { k.bucket < b || (k.bucket == b && k.pos < i) }

  /** The slots of tab before (b, i), and no others, are claimed by the entries that held them. */
  ghost predicate Claimed(tab: Table, all: seq<int>, t: State, b: int, i: int) {
    && (forall k :: k in t.newTab <==> k in tab && Before(k, b, i))
    && (forall k :: k in t.newTab ==> 0 <= t.newTab[k] < |all| && all[t.newTab[k]] == tab[k])
  }

  /** All entries are back; their references are being counted. */
  ghost predicate Filled(src: seq<Info>, t: State) {
    && (forall j :: j in t.info <==> 0 <= j < |src|)
    && (forall j :: 0 <= j < |src| ==>
      t.info[j] == Load(Save(src[j]), src[j].inTried, j).(refCount := t.info[j].refCount))
  }

  /** What is being rebuilt: the saved state s, its entries in reading order, of which the first n0 are new. */
  ghost predicate Source(net: Net, s: State, all: seq<int>, src: seq<Info>, n0: nat, d: Dump) {
    && s.Consistent(net) && Listed(s, all, n0) && |src| == |all|
    && (forall j :: 0 <= j < |all| ==> src[j] == s.info[all[j]])
    && d.nNew == n0 && TrustsBuckets(d)
  }

  ghost predicate NewStage(net: Net, s: State, all: seq<int>, src: seq<Info>, t: State, u: State, b: int, i: int) {
    && u == t.(info := u.info, newTab := u.newTab) && u.key == s.key
    && Filled(src, u) && Claimed(s.newTab, all, u, b, i) && u.NewSlotsOk(net) && u.RefCountsOk(net)
  }

  lemma ClaimNext(net: Net, s: State, all: seq<int>, src: seq<Info>, n0: nat, d: Dump, t: State, u: State, b: NewIndex,
                  i: Position, j: int)
    requires Source(net, s, all, src, n0, d) && NewStage(net, s, all, src, t, u, b, i)
    requires Slot(b, i) in s.newTab && 0 <= j < |all| && all[j] == s.newTab[Slot(b, i)]
    ensures NewStage(net, s, all, src, t, ClaimOne(net, u, d, b, j), b, i + 1)
  {
    FewerReferences(net, s, all, src, u, b, i, j);
    OwnerFits(net, s, all, src, n0, u, b, i, j);
    ClaimIsAddRef(net, u, d, Slot(b, i), j);
    AddRefSlots(net, u, Slot(b, i), j);
    AddRefCounts(net, u, Slot(b, i), j);
    AddRefClaims(s.newTab, all, src, u, b, i, j);
  }

  lemma OwnerFits(net: Net, s: State, all: seq<int>, src: seq<Info>, n0: nat, u: State, b: NewIndex, i: Position,
                  j: int)
    requires s.NewSlotsOk(net) && Listed(s, all, n0) && u.key == s.key
    requires |src| == |all| && (forall m :: 0 <= m < |all| ==> src[m] == s.info[all[m]])
    requires Filled(src, u) && Claimed(s.newTab, all, u, b, i)
    requires Slot(b, i) in s.newTab && 0 <= j < |all| && all[j] == s.newTab[Slot(b, i)]
    ensures FitsAt(net, u, Slot(b, i), j) && j < n0
  {
    assert s.newTab[Slot(b, i)] in s.info;
  }

  lemma ClaimIsAddRef(net: Net, u: State, d: Dump, k: Slot, j: int)
    requires FitsAt(net, u, k, j) && u.info[j].refCount < NEW_BUCKETS_PER_ADDRESS && 0 <= j < d.nNew && TrustsBuckets(d)
    ensures ClaimOne(net, u, d, k.bucket, j) == AddRef(u, k, j)
  {
  }

  lemma AddRefClaims(tab: Table, all: seq<int>, src: seq<Info>, u: State, b: int, i: int, j: int)
    requires Filled(src, u) && Claimed(tab, all, u, b, i)
    requires Slot(b, i) in tab && 0 <= j < |all| == |src| && all[j] == tab[Slot(b, i)]
    ensures Filled(src, AddRef(u, Slot(b, i), j)) && Claimed(tab, all, AddRef(u, Slot(b, i), j), b, i + 1)
  {
    var v := AddRef(u, Slot(b, i), j);
    forall k
      ensures k in v.newTab <==> k in tab && Before(k, b, i + 1)
    {
      assert Before(k, b, i + 1) <==> Before(k, b, i) || k == Slot(b, i);
    }
  }

  /** An entry has not yet claimed as many slots as it held. */
  lemma FewerReferences(net: Net, s: State, all: seq<int>, src: seq<Info>, u: State, b: NewIndex, i: Position, j: int)
    requires s.NewSlotsOk(net) && s.RefCountsOk(net) && s.EntriesOk({}) && u.RefCountsOk(net) && u.key == s.key
    requires 0 <= j < |all| == |src| && all[j] in s.info && src[j] == s.info[all[j]]
    requires Filled(src, u) && Claimed(s.newTab, all, u, b, i)
    requires Slot(b, i) in s.newTab && all[j] == s.newTab[Slot(b, i)]
    ensures u.info[j].refCount < NEW_BUCKETS_PER_ADDRESS
  {
    var a := s.info[all[j]].addr;
    var held, claimed := s.Buckets(net, a, all[j]), u.Buckets(net, u.info[j].addr, j);
    assert s.info[all[j]].refCount == |held|;
    forall x | x in claimed
      ensures x in held && x != b
    {
      assert u.newTab[u.NewSlot(net, a, x)] == j;
      assert s.NewSlot(net, a, x) in s.newTab;
    }
    assert b in held;
    assert claimed <= held - {b};
    SubsetSize(claimed, held - {b});
  }

  lemma SkipFree(tab: Table, all: seq<int>, u: State, b: int, i: int)
    requires Claimed(tab, all, u, b, i) && Slot(b, i) !in tab
    ensures Claimed(tab, all, u, b, i + 1)
  {
    forall k
      ensures k in u.newTab <==> k in tab && Before(k, b, i + 1)
    {
      assert Before(k, b, i + 1) <==> Before(k, b, i) || k == Slot(b, i);
    }
  }

  /** The rank written for the entry of a slot is its position in reading order. */
  lemma RankFinds(net: Net, s: State, k: Slot) returns (j: int)
    requires s.Consistent(net) && k in s.newTab
    ensures 0 <= j < |All(s)| && All(s)[j] == s.newTab[k] && Rank(NewOrder(s), s.newTab[k]) == j
  {
    RefCountSays(net, s);
    ReferencedIsNew(s);
    var id := s.newTab[k];
    assert id in s.NewIds();
    j :| 0 <= j < |NewOrder(s)| && NewOrder(s)[j] == id;
    RankIsIndex(NewOrder(s), j);
  }

  /** The rank written for an entry is its position in all. */
  ghost predicate RanksAgree(s: State, all: seq<int>) {
    forall k :: k in s.newTab ==>
      var id := s.newTab[k];
      var j := Rank(NewOrder(s), id);
      j < |all| && all[j] == id
  }

  lemma RanksAgreeWithAll(net: Net, s: State)
    requires s.Consistent(net)
    ensures RanksAgree(s, All(s))
  {
    forall k | k in s.newTab
      ensures var id := s.newTab[k]; var j := Rank(NewOrder(s), id); j < |All(s)| && All(s)[j] == id
    {
      var j := RankFinds(net, s, k);
    }
  }

  lemma ClaimRowAppend(net: Net, u: State, d: Dump, b: nat, row: seq<int>, x: int)
    ensures ClaimRow(net, u, d, b, row + [x]) == ClaimOne(net, ClaimRow(net, u, d, b, row), d, b, x)
  {
    assert (row + [x])[..|row + [x]| - 1] == row;
  }

  /** What the next position of row b of s makes of v. */
  ghost function RowStep(net: Net, s: State, d: Dump, v: State, b: nat, i: nat): State {
    if Slot(b, i) in s.newTab then ClaimOne(net, v, d, b, Rank(NewOrder(s), s.newTab[Slot(b, i)])) else v
  }

  /** What the step for one position keeps, the whole row keeps. */
  lemma {:induction false} OverRow(net: Net, s: State, d: Dump, u: State, b: nat, n: nat, keeps: (nat, State) -> bool)
    requires keeps(0, u) && forall i: nat, v :: i < n && keeps(i, v) ==> keeps(i + 1, RowStep(net, s, d, v, b, i))
    ensures keeps(n, ClaimRow(net, u, d, b, Row(s, b, n)))
    decreases n
  {
    if n > 0 {
      OverRow(net, s, d, u, b, n - 1, keeps);
      var v := ClaimRow(net, u, d, b, Row(s, b, n - 1));
      if Slot(b, n - 1) in s.newTab {
        ClaimRowAppend(net, u, d, b, Row(s, b, n - 1), Rank(NewOrder(s), s.newTab[Slot(b, n - 1)]));
      }
      assert keeps(n - 1 + 1, RowStep(net, s, d, v, b, n - 1));
    }
  }

  /** v has claimed the first i positions of row b; the next position is looked at. */
  lemma RowNext(net: Net, s: State, all: seq<int>, src: seq<Info>, n0: nat, d: Dump, t: State, v: State, b: NewIndex,
                i: Position)
    requires RanksAgree(s, all) && Source(net, s, all, src, n0, d) && NewStage(net, s, all, src, t, v, b, i)
    ensures NewStage(net, s, all, src, t, RowStep(net, s, d, v, b, i), b, i + 1)
  {
    if Slot(b, i) in s.newTab {
      ClaimNext(net, s, all, src, n0, d, t, v, b, i, Rank(NewOrder(s), s.newTab[Slot(b, i)]));
    } else {
      SkipFree(s.newTab, all, v, b, i);
    }
  }

  lemma ClaimRowClaims(net: Net, s: State, all: seq<int>, src: seq<Info>, n0: nat, d: Dump, t: State, u: State,
                       b: NewIndex)
    requires RanksAgree(s, all) && Source(net, s, all, src, n0, d) && NewStage(net, s, all, src, t, u, b, 0)
    ensures NewStage(net, s, all, src, t, ClaimRow(net, u, d, b, Row(s, b, BUCKET_SIZE)), b + 1, 0)
  {
    forall i: nat, v | i < BUCKET_SIZE && NewStage(net, s, all, src, t, v, b, i)
      ensures NewStage(net, s, all, src, t, RowStep(net, s, d, v, b, i), b, i + 1)
    {
      RowNext(net, s, all, src, n0, d, t, v, b, i);
    }
    OverRow(net, s, d, u, b, BUCKET_SIZE, (i: nat, v) => NewStage(net, s, all, src, t, v, b, i));
    NextBucket(net, s, all, src, t, ClaimRow(net, u, d, b, Row(s, b, BUCKET_SIZE)), b);
  }

  lemma NextBucket(net: Net, s: State, all: seq<int>, src: seq<Info>, t: State, u: State, b: NewIndex)
    requires s.NewSlotsOk(net) && NewStage(net, s, all, src, t, u, b, BUCKET_SIZE)
    ensures NewStage(net, s, all, src, t, u, b + 1, 0)
  {
    forall k
      ensures k in u.newTab <==> k in s.newTab && Before(k, b + 1, 0)
    {
      if k in s.newTab {
        assert k.pos < BUCKET_SIZE;
      }
    }
  }

  lemma ClaimAllClaims(net: Net, s: State, all: seq<int>, src: seq<Info>, n0: nat, d: Dump, t: State)
    requires RanksAgree(s, all) && Source(net, s, all, src, n0, d) && NewStage(net, s, all, src, t, t, 0, 0)
    requires |d.buckets| == NEW_BUCKET_COUNT
    requires forall i :: 0 <= i < |d.buckets| ==> d.buckets[i] == Row(s, i, BUCKET_SIZE)
    ensures NewStage(net, s, all, src, t, ClaimAll(net, t, d, NEW_BUCKET_COUNT), NEW_BUCKET_COUNT, 0)
  {
    forall b: nat, u | b < |d.buckets| && NewStage(net, s, all, src, t, u, b, 0)
      ensures NewStage(net, s, all, src, t, ClaimRow(net, u, d, b, d.buckets[b]), b + 1, 0)
    {
      ClaimRowClaims(net, s, all, src, n0, d, t, u, b);
    }
    OverBuckets(net, t, d, |d.buckets|, (b: nat, u) => NewStage(net, s, all, src, t, u, b, 0));
  }

  // ---- the rebuilt manager

  /** What an entry looks like after a restart: the fields that live only in memory start afresh. */
  function Restarted(i: Info, id: int): Info {
    i.(stats := i.stats.(lastTry := 0, lastCountAttempt := 0), randomPos := id)
  }

  /** r is s with the id all[j] renamed to j, for every j, and the memory-only fields reset. */
  ghost predicate SameUpToIds(s: State, r: State, all: seq<int>) {
    && Listed(s, all, if s.nNew < 0 then 0 else s.nNew)
    && r.key == s.key && r.nNew == s.nNew && r.nTried == s.nTried
    && (forall j :: j in r.info <==> 0 <= j < |all|)
    && (forall j :: 0 <= j < |all| ==> r.info[j] == Restarted(s.info[all[j]], j))
    && r.newTab.Keys == s.newTab.Keys
    && (forall k :: k in r.newTab ==> 0 <= r.newTab[k] < |all| && all[r.newTab[k]] == s.newTab[k])
    && r.triedTab.Keys == s.triedTab.Keys
    && (forall k :: k in r.triedTab ==> 0 <= r.triedTab[k] < |all| && all[r.triedTab[k]] == s.triedTab[k])
  }

  lemma AllClaimed(net: Net, s: State, all: seq<int>, u: State)
    requires s.NewSlotsOk(net) && Claimed(s.newTab, all, u, NEW_BUCKET_COUNT, 0)
    ensures u.newTab.Keys == s.newTab.Keys
  {
    forall k
      ensures k in u.newTab.Keys <==> k in s.newTab.Keys
    {
      assert k in u.newTab <==> k in s.newTab && Before(k, NEW_BUCKET_COUNT, 0);
    }
  }

  lemma SameBuckets(net: Net, s: State, all: seq<int>, n0: nat, u: State, j: int)
    requires Listed(s, all, n0) && 0 <= j < |all| && u.key == s.key && s.NewSlotsOk(net)
    requires u.newTab.Keys == s.newTab.Keys
    requires forall k :: k in u.newTab ==> 0 <= u.newTab[k] < |all| && all[u.newTab[k]] == s.newTab[k]
    ensures u.Buckets(net, s.info[all[j]].addr, j) == s.Buckets(net, s.info[all[j]].addr, all[j])
  {
    var a := s.info[all[j]].addr;
    forall b | 0 <= b < NEW_BUCKET_COUNT
      ensures b in u.Buckets(net, a, j) <==> b in s.Buckets(net, a, all[j])
    {
      var k := s.NewSlot(net, a, b);
      assert k == u.NewSlot(net, a, b);
      assert k in u.newTab <==> k in s.newTab;
    }
  }

  /** Every entry got back as many references as it had. */
  lemma ReferencesBack(net: Net, s: State, all: seq<int>, src: seq<Info>, n0: nat, d: Dump, t: State, u: State)
    requires Source(net, s, all, src, n0, d) && NewStage(net, s, all, src, t, u, NEW_BUCKET_COUNT, 0)
    ensures u.newTab.Keys == s.newTab.Keys
    ensures forall j :: 0 <= j < |all| ==> j in u.info && u.info[j] == Restarted(s.info[all[j]], j)
  {
    AllClaimed(net, s, all, u);
    forall j | 0 <= j < |all|
      ensures j in u.info && u.info[j] == Restarted(s.info[all[j]], j)
    {
      SameBuckets(net, s, all, n0, u, j);
      assert u.info[j].refCount == |u.Buckets(net, u.info[j].addr, j)|;
      assert s.info[all[j]].refCount == |s.Buckets(net, s.info[all[j]].addr, all[j])|;
    }
  }

  lemma RebuiltIndexed(src: seq<Info>, t: State, u: State)
    requires Loaded(src, t, |src|) && u.addr == t.addr && u.random == t.random && u.idCount == |src| && Filled(src, u)
    ensures u.AddrIndexed() && u.RandomIndexed()
  {
  }

  lemma RebuiltTried(net: Net, src: seq<Info>, t: State, u: State, n0: nat)
    requires TriedLoaded(net, src, t, n0, |src|) && u.triedTab == t.triedTab && u.key == t.key && Filled(src, u)
    requires forall j :: 0 <= j < |src| ==> (src[j].inTried <==> n0 <= j)
    ensures u.TriedTableOk(net)
  {
    forall k | k in u.triedTab
      ensures var id := u.triedTab[k]; id in u.info && u.info[id].inTried && k == u.TriedSlot(net, u.info[id].addr)
    {
      assert k == SlotFor(net, t.key, src[u.triedTab[k]].addr);
    }
    forall j | j in u.info && u.info[j].inTried
      ensures u.TriedSlot(net, u.info[j].addr) in u.triedTab && u.triedTab[u.TriedSlot(net, u.info[j].addr)] == j
    {
      assert SlotFor(net, t.key, src[j].addr) in t.triedTab;
    }
  }

  lemma RangeSize(lo: int, hi: int, range: set<int>)
    requires lo <= hi && forall x :: x in range <==> lo <= x < hi
    ensures |range| == hi - lo
    decreases hi - lo
  {
    if lo < hi {
      RangeSize(lo + 1, hi, range - {lo});
    } else {
      forall x ensures x !in range {}
      assert range == {};
    }
  }

  lemma RebuiltCounts(src: seq<Info>, u: State, n0: nat)
    requires Filled(src, u) && n0 <= |src| && forall j :: 0 <= j < |src| ==> (src[j].inTried <==> n0 <= j)
    requires u.nNew == n0 && u.nTried == |src| - n0
    ensures u.CountersOk(0, 0)
  {
    RangeSize(0, n0, u.NewIds());
    RangeSize(n0, |src|, u.TriedIds());
  }

  lemma RebuiltEntries(s: State, all: seq<int>, n0: nat, u: State)
    requires Listed(s, all, n0) && s.EntriesOk({}) && s.TimesOk()
    requires forall j :: j in u.info <==> 0 <= j < |all|
    requires forall j :: 0 <= j < |all| ==> u.info[j] == Restarted(s.info[all[j]], j)
    ensures u.EntriesOk({}) && u.TimesOk()
  {
    forall j | j in u.info
      ensures u.info[j].stats.lastSuccess == s.info[all[j]].stats.lastSuccess
      ensures u.info[j].refCount == s.info[all[j]].refCount
    {
    }
  }

  /** The tried slots of s are those of the entries read back as tried. */
  lemma TriedBack(net: Net, s: State, all: seq<int>, src: seq<Info>, n0: nat, d: Dump, t: State)
    requires Source(net, s, all, src, n0, d) && t.key == s.key && TriedLoaded(net, src, t, n0, |src|)
    ensures t.triedTab.Keys == s.triedTab.Keys
    ensures forall k :: k in t.triedTab ==> 0 <= t.triedTab[k] < |all| && all[t.triedTab[k]] == s.triedTab[k]
  {
    forall k | k in t.triedTab
      ensures k in s.triedTab && all[t.triedTab[k]] == s.triedTab[k]
    {
      var id := all[t.triedTab[k]];
      assert k == s.TriedSlot(net, s.info[id].addr);
    }
    forall k | k in s.triedTab
      ensures k in t.triedTab
    {
      var id := s.triedTab[k];
      var j :| 0 <= j < |all| && all[j] == id;
      assert k == SlotFor(net, t.key, src[j].addr);
    }
  }

  // ---- the theorem

  lemma DumpIsReadable(net: Net, s: State)
    requires s.Consistent(net)
    ensures s.nNew >= 0 && s.nTried >= 0 && WellFormed(Serialize(s)) && TrustsBuckets(Serialize(s))
    ensures |Serialize(s).newEntries| == s.nNew && |Serialize(s).triedEntries| == s.nTried
  {
    AllIsListed(net, s);
    FlippedTwice(NEW_BUCKET_COUNT);
  }

  /** Saving the new ids q and then the tried ids r saves the entries in reading order. */
  lemma SavedInOrder(s: State, q: seq<int>, r: seq<int>, all: seq<int>, src: seq<Info>, d: Dump)
    requires all == q + r && |src| == |all| && Listed(s, all, |q|)
    requires forall j :: 0 <= j < |src| ==> src[j] == s.info[all[j]]
    requires forall j :: 0 <= j < |q| ==> q[j] in s.info
    requires forall j :: 0 <= j < |r| ==> r[j] in s.info
    requires d.newEntries == SaveAll(s, q) && d.triedEntries == SaveAll(s, r)
    ensures forall j :: 0 <= j < |q| ==> d.newEntries[j] == Save(src[j]) && !src[j].inTried
    ensures SavedTried(src, |q|, d.triedEntries)
  {
    forall j | 0 <= j < |q|
      ensures d.newEntries[j] == Save(src[j]) && !src[j].inTried
    {
      assert all[j] == q[j];
    }
    forall j | |q| <= j < |src|
      ensures d.triedEntries[j - |q|] == Save(src[j]) && src[j].inTried
    {
      assert all[j] == r[j - |q|];
    }
  }

  lemma DumpIsInOrder(net: Net, s: State, src: seq<Info>, d: Dump)
    requires s.Consistent(net) && d == Serialize(s) && |src| == |All(s)|
    requires forall j :: 0 <= j < |src| ==> All(s)[j] in s.info && src[j] == s.info[All(s)[j]]
    ensures |d.newEntries| == s.nNew
    ensures forall j :: 0 <= j < s.nNew ==> d.newEntries[j] == Save(src[j]) && !src[j].inTried
    ensures SavedTried(src, s.nNew, d.triedEntries)
  {
    AllIsListed(net, s);
    SavedInOrder(s, NewOrder(s), TriedOrder(s), All(s), src, d);
  }

  lemma SourceIsReady(net: Net, s: State) returns (src: seq<Info>)
    requires s.Consistent(net)
    ensures s.nNew >= 0 && Source(net, s, All(s), src, s.nNew, Serialize(s))
    ensures DistinctAddrs(src) && DistinctSlots(net, s.key, src, s.nNew)
  {
    DumpIsReadable(net, s);
    AllIsListed(net, s);
    src := Entries(s, All(s));
    DistinctEntries(net, s, All(s), src);
  }

  lemma DistinctEntries(net: Net, s: State, all: seq<int>, src: seq<Info>)
    requires s.AddrIndexed() && s.TriedTableOk(net) && s.nNew >= 0 && Listed(s, all, s.nNew)
    requires |src| == |all| && forall j :: 0 <= j < |all| ==> src[j] == s.info[all[j]]
    ensures DistinctAddrs(src) && DistinctSlots(net, s.key, src, s.nNew)
  {
    forall i, j | 0 <= i < j < |src|
      ensures src[i].addr.ip != src[j].addr.ip
      ensures s.nNew <= i ==> SlotFor(net, s.key, src[i].addr) != SlotFor(net, s.key, src[j].addr)
    {
      assert all[i] != all[j];
      assert s.addr[s.info[all[i]].addr.ip] == all[i] && s.addr[s.info[all[j]].addr.ip] == all[j];
      if s.nNew <= i {
        assert s.info[all[i]].inTried && s.info[all[j]].inTried;
        assert SlotFor(net, s.key, src[i].addr) == s.TriedSlot(net, src[i].addr);
        assert SlotFor(net, s.key, src[j].addr) == s.TriedSlot(net, src[j].addr);
      }
    }
  }

  /** The entries and the tried table are back. */
  ghost predicate EntriesAreBack(net: Net, t0: State, src: seq<Info>, n0: nat, t2: State) {
    && Loaded(src, t2, |src|) && n0 <= |src| && TriedLoaded(net, src, t2, n0, |src|)
    && t2 == t0.(info := t2.info, addr := t2.addr, random := t2.random, triedTab := t2.triedTab, idCount := |src|)
  }

  lemma EntriesBack(net: Net, t0: State, src: seq<Info>, n0: nat, d: Dump)
    requires t0.info == map[] && t0.addr == map[] && t0.random == [] && t0.triedTab == map[]
    requires DistinctAddrs(src) && DistinctSlots(net, t0.key, src, n0) && TrustsBuckets(d)
    requires n0 == |d.newEntries| <= |src| && SavedTried(src, n0, d.triedEntries)
    requires forall j :: 0 <= j < n0 ==> d.newEntries[j] == Save(src[j]) && !src[j].inTried
    ensures EntriesAreBack(net, t0, src, n0,
      LoadTried(net, LoadNew(net, t0, d, n0).(idCount := n0), d, |d.triedEntries|))
  {
    LoadNewLoads(net, src, t0, d);
    var t1 := LoadNew(net, t0, d, n0).(idCount := n0);
    assert TriedStage(net, src, t1, t1, n0, n0);
    LoadTriedLoads(net, src, t1, d, n0);
  }

  lemma StartsEmpty(net: Net, s: State, src: seq<Info>, t: State)
    requires Loaded(src, t, |src|) && t.newTab == map[] && t.key == s.key && s.NewSlotsOk(net)
    ensures NewStage(net, s, All(s), src, t, t, 0, 0)
  {
    NoReferencesYet(net, src, t);
    assert Filled(src, t);
    assert Claimed(s.newTab, All(s), t, 0, 0) by {
      assert forall k :: k in s.newTab ==> k.bucket >= 0 && k.pos >= 0;
    }
  }

  lemma NoReferencesYet(net: Net, src: seq<Info>, t: State)
    requires Loaded(src, t, |src|) && t.newTab == map[]
    ensures t.NewSlotsOk(net) && t.RefCountsOk(net)
  {
    forall j | j in t.info
      ensures t.info[j].refCount == |t.Buckets(net, t.info[j].addr, j)|
    {
      assert t.Buckets(net, t.info[j].addr, j) == {};
    }
  }

  /** u is the rebuilt manager: t2 with all slots claimed. */
  ghost predicate Rebuilt(net: Net, s: State, src: seq<Info>, d: Dump, t2: State, u: State) {
    && s.nNew >= 0 && Source(net, s, All(s), src, s.nNew, d)
    && Loaded(src, t2, |src|) && TriedLoaded(net, src, t2, s.nNew, |src|) && t2.idCount == |src|
    && t2.key == s.key && t2.nNew == s.nNew && t2.nTried == s.nTried
    && NewStage(net, s, All(s), src, t2, u, NEW_BUCKET_COUNT, 0)
  }

  lemma RebuiltIsSame(net: Net, s: State, src: seq<Info>, d: Dump, t2: State, u: State)
    requires Rebuilt(net, s, src, d, t2, u)
    ensures SameUpToIds(s, u, All(s))
  {
    ReferencesBack(net, s, All(s), src, s.nNew, d, t2, u);
    TriedBack(net, s, All(s), src, s.nNew, d, t2);
  }

  lemma RebuiltIsConsistent(net: Net, s: State, all: seq<int>, src: seq<Info>, n0: nat, t2: State, u: State)
    requires Listed(s, all, n0) && s.EntriesOk({}) && s.TimesOk() && |src| == |all|
    requires (forall j :: 0 <= j < |all| ==> src[j] == s.info[all[j]])
    requires Loaded(src, t2, |src|) && TriedLoaded(net, src, t2, n0, |src|)
    requires u.addr == t2.addr && u.random == t2.random && u.triedTab == t2.triedTab && u.key == t2.key
    requires u.idCount == |src|
    requires u.nNew == n0 && u.nTried == |src| - n0
    requires Filled(src, u) && u.NewSlotsOk(net) && u.RefCountsOk(net)
    requires forall j :: 0 <= j < |all| ==> u.info[j] == Restarted(s.info[all[j]], j)
    ensures u.Consistent(net)
  {
    RebuiltIndexed(src, t2, u);
    RebuiltTried(net, src, t2, u, n0);
    RebuiltCounts(src, u, n0);
    RebuiltEntries(s, all, n0, u);
  }

  lemma NoneHomeless(net: Net, u: State)
    requires u.Consistent(net)
    ensures Homeless(u) == {}
  {
    forall id
      ensures id !in Homeless(u)
    {
    }
  }

  /** Claiming the stored buckets completes the manager; t0 is what reading started from. */
  lemma Finish(net: Net, s: State, t0: State, src: seq<Info>, d: Dump, t2: State)
    requires s.nNew >= 0 && Source(net, s, All(s), src, s.nNew, d) && EntriesAreBack(net, t0, src, s.nNew, t2)
    requires t0.newTab == map[] && t0.key == s.key && t0.nNew == s.nNew && t0.nTried == s.nTried
    requires |d.buckets| == NEW_BUCKET_COUNT
    requires forall i :: 0 <= i < |d.buckets| ==> d.buckets[i] == Row(s, i, BUCKET_SIZE)
    ensures IsRestart(net, s, t0.collisions, ClaimAll(net, t2, d, NEW_BUCKET_COUNT))
  {
    StartsEmpty(net, s, src, t2);
    RanksAgreeWithAll(net, s);
    ClaimAllClaims(net, s, All(s), src, s.nNew, d, t2);
    var u := ClaimAll(net, t2, d, NEW_BUCKET_COUNT);
    assert Rebuilt(net, s, src, d, t2, u);
    RebuiltIsSame(net, s, src, d, t2, u);
    RebuiltIsConsistent(net, s, All(s), src, s.nNew, t2, u);
  }

  /** r is consistent and is s up to the ids, with the given collisions pending. */
  ghost predicate IsRestart(net: Net, s: State, collisions: set<int>, r: State) {
    r.Consistent(net) && SameUpToIds(s, r, All(s)) && r.collisions == collisions && r.idCount == |All(s)|
  }

  /** With every entry in some table there is nothing to prune. */
  lemma NothingToPrune(net: Net, t: State, d: Dump)
    requires WellFormed(d) && Unpruned(net, t, d).Consistent(net)
    ensures Rebuild(net, t, d) == Unpruned(net, t, d)
  {
    NoneHomeless(net, Unpruned(net, t, d));
  }

  /** All entries that s wrote are back. */
  lemma WrittenIsEntered(net: Net, s: State, t: State, src: seq<Info>, d: Dump)
    requires s.Consistent(net) && d == Serialize(s)
    requires t.info == map[] && t.addr == map[] && t.random == [] && t.triedTab == map[]
    requires s.nNew >= 0 && Source(net, s, All(s), src, s.nNew, d) && DistinctAddrs(src)
    requires DistinctSlots(net, s.key, src, s.nNew)
    ensures EntriesAreBack(net, Started(t, d), src, s.nNew, Entered(net, t, d))
  {
    DumpIsInOrder(net, s, src, d);
    EntriesBack(net, Started(t, d), src, s.nNew, d);
  }

  /** Rebuilding from what s wrote, over an empty manager. */
  lemma RebuildsWritten(net: Net, s: State, t: State, src: seq<Info>, d: Dump)
    requires s.Consistent(net) && d == Serialize(s) && t.newTab == map[]
    requires t.info == map[] && t.addr == map[] && t.random == [] && t.triedTab == map[]
    requires s.nNew >= 0 && Source(net, s, All(s), src, s.nNew, d) && DistinctAddrs(src)
    requires DistinctSlots(net, s.key, src, s.nNew)
    ensures IsRestart(net, s, t.collisions, Unpruned(net, t, d))
  {
    WrittenIsEntered(net, s, t, src, d);
    Finish(net, s, Started(t, d), src, d, Entered(net, t, d));
  }

  /** Unserialize(Serialize(s)) is s up to the ids, whatever manager it is read into. */
  lemma RoundTrip(net: Net, s: State, into: State, randomKey: Key)
    requires s.Consistent(net)
    ensures WellFormed(Serialize(s))
    ensures IsRestart(net, s, into.collisions, Unserialize(net, into, Serialize(s), randomKey))
  {
    var src := SourceIsReady(net, s);
    DumpIsReadable(net, s);
    RebuildsWritten(net, s, Cleared(into, randomKey), src, Serialize(s));
    NothingToPrune(net, Cleared(into, randomKey), Serialize(s));
  }

  // ---- pending collisions

  /** The entry that s knows as all[id] has its tried slot filled. */
  ghost predicate Contested(net: Net, s: State, all: seq<int>, id: int) {
    0 <= id < |all| && all[id] in s.info && s.TriedSlot(net, s.info[all[id]].addr) in s.triedTab
  }

  /**
   Can these collisions be pending once s has been read? They must name entries of s whose tried
   slot s has filled.
   */
  ghost predicate MayPend(net: Net, s: State, collisions: set<int>) {
    |collisions| <= MAX_TRIED_COLLISIONS && forall id :: id in collisions ==> Contested(net, s, All(s), id)
  }

  lemma SameContest(net: Net, s: State, r: State, all: seq<int>, id: int)
    requires SameUpToIds(s, r, all) && r.idCount == |all|
    ensures Contested(net, s, all, id) <==>
      0 <= id < r.idCount && (id in r.info ==> r.TriedSlot(net, r.info[id].addr) in r.triedTab)
  {
    if 0 <= id < |all| {
      assert r.info[id] == Restarted(s.info[all[id]], id);
      assert r.TriedSlot(net, r.info[id].addr) in r.triedTab.Keys <==>
        s.TriedSlot(net, s.info[all[id]].addr) in s.triedTab.Keys;
    }
  }

  lemma PendingAfterRestart(net: Net, s: State, collisions: set<int>, r: State)
    requires SameUpToIds(s, r, All(s)) && r.collisions == collisions && r.idCount == |All(s)|
    ensures r.CollisionsOk(net) <==> MayPend(net, s, collisions)
  {
    forall id | id in collisions
      ensures Contested(net, s, All(s), id) <==>
        0 <= id < r.idCount && (id in r.info ==> r.TriedSlot(net, r.info[id].addr) in r.triedTab)
    {
      SameContest(net, s, r, All(s), id);
    }
  }

  /**
   Reading does not touch the collisions that were pending before. The whole invariant holds
   afterwards exactly when those happen to fit what was read.
   */
  lemma RestartExactly(net: Net, s: State, into: State, randomKey: Key)
    requires s.Consistent(net)
    ensures WellFormed(Serialize(s))
    ensures Unserialize(net, into, Serialize(s), randomKey).Inv(net) <==> MayPend(net, s, into.collisions)
  {
    RoundTrip(net, s, into, randomKey);
    PendingAfterRestart(net, s, into.collisions, Unserialize(net, into, Serialize(s), randomKey));
  }

  /** Reading the file of an empty manager while a collision is pending leaves the id of an entry that never was. */
  lemma StaleCollision(net: Net, key: Key, into: State, randomKey: Key)
    requires into.collisions == {5}
    ensures Empty(key).Inv(net) && WellFormed(Serialize(Empty(key)))
    ensures !Unserialize(net, into, Serialize(Empty(key)), randomKey).Inv(net)
  {
    var s := Empty(key);
    assert s.NewIds() == {} && s.TriedIds() == {};
    AllIsListed(net, s);
    RestartExactly(net, s, into, randomKey);
    assert 5 in into.collisions;
  }
}
