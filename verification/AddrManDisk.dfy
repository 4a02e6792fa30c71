/**
 Saving the address manager and rebuilding it. The stream keeps only the entries, in
 increasing order of id, and for each new bucket the ranks of its entries; everything
 else is recomputed.
 */
module AddrManDisk {
  import opened AddrManState
  import opened AddrManOps
  import opened IntSets

  const VERSION: int := 1
  const KEY_SIZE: int := 32
  /** The bucket count is stored with bit 30 flipped, which version 0 readers reject. */
  const BUCKET_MARK: int := 0x4000_0000

  /** A 32-bit signed number with bit 30 flipped. */
  function Flipped(n: int): int {
    var u := n % 0x1_0000_0000;
    var v := if u / BUCKET_MARK % 2 == 1 then u - BUCKET_MARK else u + BUCKET_MARK;
    if v >= 0x8000_0000 then v - 0x1_0000_0000 else v
  }

  lemma FlippedTwice(n: int)
    requires -0x8000_0000 <= n < 0x8000_0000
    ensures Flipped(Flipped(n)) == n
  {
  }

  /** What the stream keeps of an entry. */
  datatype Saved = Saved(addr: Service, services: bv64, time: int, source: NetAddr, lastSuccess: int, attempts: int)

  function Save(i: Info): Saved {
    Saved(i.addr, i.stats.services, i.stats.time, i.source, i.stats.lastSuccess, i.stats.attempts)
  }

  function Load(v: Saved, inTried: bool, randomPos: int): Info {
    Info(v.addr, v.source, Stats(v.services, v.time, 0, 0, v.lastSuccess, v.attempts), 0, inTried, randomPos)
  }

  datatype Dump = Dump(
    version: int, keySize: int, key: Key, nNew: int, nTried: int, bucketCount: int,
    newEntries: seq<Saved>, triedEntries: seq<Saved>, buckets: seq<seq<int>>)

  // ---- Serialize

  /** The elements of a set in increasing order. */
  ghost function Ascending(ids: set<int>): (q: seq<int>)
    ensures forall x :: x in q <==> x in ids
    ensures |q| == |ids|
    ensures forall i, j :: 0 <= i < j < |q| ==> q[i] < q[j]
  {
    if ids == {} then [] else
    var m := Min(ids);
    [m] + Ascending(ids - {m})
  }

  ghost function SaveAll(s: State, q: seq<int>): (r: seq<Saved>)
    requires forall j :: 0 <= j < |q| ==> q[j] in s.info
    ensures |r| == |q| && forall j :: 0 <= j < |q| ==> r[j] == Save(s.info[q[j]])
  {
    seq(|q|, j requires 0 <= j < |q| => Save(s.info[q[j]]))
  }

  /** Entries with a reference, in increasing order of id: their ranks are their new ids. */
  ghost function NewOrder(s: State): (q: seq<int>)
    ensures forall j :: 0 <= j < |q| ==> q[j] in s.info && s.info[q[j]].refCount != 0
  {
    var q := Ascending(set id | id in s.info && s.info[id].refCount != 0);
    assert forall j :: 0 <= j < |q| ==> q[j] in q;
    q
  }

  ghost function TriedOrder(s: State): (q: seq<int>)
    ensures forall j :: 0 <= j < |q| ==> q[j] in s.info && s.info[q[j]].inTried
  {
    var q := Ascending(s.TriedIds());
    assert forall j :: 0 <= j < |q| ==> q[j] in q;
    q
  }

  /** How many elements of q are below id. */
  ghost function Rank(q: seq<int>, id: int): nat {
    |set x | x in q && x < id|
  }

  /** The ranks of the entries in the first n positions of new bucket b. */
  ghost function Row(s: State, b: int, n: nat): seq<int> {
    if n == 0 then []
    else if Slot(b, n - 1) in s.newTab then Row(s, b, n - 1) + [Rank(NewOrder(s), s.newTab[Slot(b, n - 1)])]
    else Row(s, b, n - 1)
  }

  ghost function Serialize(s: State): Dump {
    Dump(VERSION, KEY_SIZE, s.key, s.nNew, s.nTried, Flipped(NEW_BUCKET_COUNT),
         SaveAll(s, NewOrder(s)), SaveAll(s, TriedOrder(s)),
         seq(NEW_BUCKET_COUNT, b => Row(s, b, BUCKET_SIZE)))
  }

  // ---- Unserialize

  function Cleared(s: State, key: Key): State {
    Empty(key).(collisions := s.collisions)
  }

  function BucketCount(d: Dump): int { if d.version != 0 then Flipped(d.bucketCount) else d.bucketCount }

  /** Can the stored positions in the new table be used? */
  predicate TrustsBuckets(d: Dump) { d.version == VERSION && BucketCount(d) == NEW_BUCKET_COUNT }

  /** The next new entry; without usable buckets it gets a reference where its source puts it. */
  function LoadNewOne(net: Net, s: State, d: Dump, id: int, v: Saved): State {
    var t := Enter(s, id, Load(v, false, |s.random|));
    var k := HomeSlot(net, t, t.info[id]);
    if !TrustsBuckets(d) && k !in t.newTab then AddRef(t, k, id) else t
  }

  function LoadNew(net: Net, s: State, d: Dump, n: nat): State
    requires n <= |d.newEntries|
  {
    if n == 0 then s else LoadNewOne(net, LoadNew(net, s, d, n - 1), d, n - 1, d.newEntries[n - 1])
  }

  /** The tried table after id is written to the free slot k; the id -1 is the mark of a free slot. */
  function Marked(tab: Table, k: Slot, id: int): Table { if id == -1 then tab else tab[k := id] }

  /** The next tried entry; it is lost if its slot is taken. */
  function LoadTriedOne(net: Net, s: State, v: Saved): State {
    var k := s.TriedSlot(net, v.addr);
    if k in s.triedTab then s.(nTried := s.nTried - 1) else
    Append(s, Load(v, true, |s.random|)).(triedTab := Marked(s.triedTab, k, s.idCount))
  }

  function LoadTried(net: Net, s: State, d: Dump, n: nat): State
    requires n <= |d.triedEntries|
  {
    if n == 0 then s else LoadTriedOne(net, LoadTried(net, s, d, n - 1), d.triedEntries[n - 1])
  }

  /** The entry at the given index claims its slot in new bucket b. */
  function ClaimOne(net: Net, s: State, d: Dump, b: nat, index: int): State {
    if !(0 <= index < d.nNew) || index !in s.info then s else
    var k := s.NewSlot(net, s.info[index].addr, b);
    if TrustsBuckets(d) && k !in s.newTab && s.info[index].refCount < NEW_BUCKETS_PER_ADDRESS
      then AddRef(s, k, index) else s
  }

  function ClaimRow(net: Net, s: State, d: Dump, b: nat, row: seq<int>): State {
    if row == [] then s else ClaimOne(net, ClaimRow(net, s, d, b, row[..|row| - 1]), d, b, row[|row| - 1])
  }

  function ClaimAll(net: Net, s: State, d: Dump, b: nat): State
    requires b <= |d.buckets|
  {
    if b == 0 then s else ClaimRow(net, ClaimAll(net, s, d, b - 1), d, b - 1, d.buckets[b - 1])
  }

  // ---- what one step keeps, the whole loop keeps

  lemma {:induction false} OverNew(net: Net, s: State, d: Dump, n: nat, keeps: (nat, State) -> bool)
    requires n <= |d.newEntries| && keeps(0, s)
    requires forall j: nat, u :: j < |d.newEntries| && keeps(j, u) ==>
      keeps(j + 1, LoadNewOne(net, u, d, j, d.newEntries[j]))
    ensures keeps(n, LoadNew(net, s, d, n))
  {
    if n > 0 {
      OverNew(net, s, d, n - 1, keeps);
    }
  }

  lemma {:induction false} OverTried(net: Net, s: State, d: Dump, n: nat, keeps: (nat, State) -> bool)
    requires n <= |d.triedEntries| && keeps(0, s)
    requires forall j: nat, u :: j < |d.triedEntries| && keeps(j, u) ==>
      keeps(j + 1, LoadTriedOne(net, u, d.triedEntries[j]))
    ensures keeps(n, LoadTried(net, s, d, n))
  {
    if n > 0 {
      OverTried(net, s, d, n - 1, keeps);
    }
  }

  lemma {:induction false} OverBuckets(net: Net, s: State, d: Dump, n: nat, keeps: (nat, State) -> bool)
    requires n <= |d.buckets| && keeps(0, s)
    requires forall b: nat, u :: b < |d.buckets| && keeps(b, u) ==> keeps(b + 1, ClaimRow(net, u, d, b, d.buckets[b]))
    ensures keeps(n, ClaimAll(net, s, d, n))
  {
    if n > 0 {
      OverBuckets(net, s, d, n - 1, keeps);
    }
  }

  /** Entries that ended up in no table. */
  function Homeless(s: State): set<int> { set id | id in s.info && !s.info[id].inTried && s.info[id].refCount == 0 }

  ghost function Prune(s: State, pending: set<int>): State
    decreases pending
  {
    if pending == {} then s else Prune(DeleteUnreferenced(s, Min(pending)), pending - {Min(pending)})
  }

  /** A dump whose lists have the announced lengths, as reading it off a stream gives. */
  predicate WellFormed(d: Dump) {
    && |d.newEntries| == (if d.nNew < 0 then 0 else d.nNew)
    && |d.triedEntries| == (if d.nTried < 0 then 0 else d.nTried)
    && |d.buckets| == (if BucketCount(d) < 0 then 0 else BucketCount(d))
  }

  function Started(s: State, d: Dump): State { s.(key := d.key, nNew := d.nNew, nTried := d.nTried) }

  /** All entries are read. */
  function Entered(net: Net, s: State, d: Dump): State {
    LoadTried(net, LoadNew(net, Started(s, d), d, |d.newEntries|).(idCount := d.nNew), d, |d.triedEntries|)
  }

  /** The slots of the new table are claimed. */
  function Unpruned(net: Net, s: State, d: Dump): State { ClaimAll(net, Entered(net, s, d), d, |d.buckets|) }

  ghost function Rebuild(net: Net, s: State, d: Dump): State
    requires WellFormed(d)
  {
    Prune(Unpruned(net, s, d), Homeless(Unpruned(net, s, d)))
  }

  /** Reading d over the manager s; randomKey is the key a cleared manager draws. */
  ghost function Unserialize(net: Net, s: State, d: Dump, randomKey: Key): State
    requires WellFormed(d)
  {
    if d.keySize != KEY_SIZE then Cleared(s, randomKey) else Rebuild(net, Cleared(s, randomKey), d)
  }
}
