/** The cuckoo cache: insertion, lookup and ageing, over a table with collection and epoch flags. */
module Cuckoo {
  import opened Common
  import opened CuckooModel
  import opened CuckooPath
  import opened Powers

  /** How many of the first n slots are recent and not collected. */
  function Live(epoch: seq<bool>, collected: seq<bool>, n: nat): (k: nat)
    requires n <= |epoch| && n <= |collected|
    ensures k <= n
  {
    if n == 0 then 0 else Live(epoch, collected, n - 1) + if epoch[n - 1] && !collected[n - 1] then 1 else 0
  }

  /** Ageing: recent slots become old, and old slots collectable. */
  ghost predicate Aged(epoch: seq<bool>, collected: seq<bool>, newEpoch: seq<bool>, newCollected: seq<bool>) {
    && |epoch| == |collected| == |newEpoch| == |newCollected|
    && forall i :: 0 <= i < |epoch| ==> !newEpoch[i] && newCollected[i] == (collected[i] || !epoch[i])
  }

  /**
   What the check before every insertion does: it counts down to the next scan, and a scan ages the slots if
   enough recent ones are in use; if not, the next scan is due when there could be.
   */
  ghost predicate Checked(epochSize: nat, counter: nat, epoch: seq<bool>, collected: seq<bool>, newCounter: nat,
                          newEpoch: seq<bool>, newCollected: seq<bool>)
    requires |epoch| == |collected|
  {
    var n := Live(epoch, collected, |epoch|);
    if counter == 0 && n >= epochSize then newCounter == epochSize && Aged(epoch, collected, newEpoch, newCollected)
    else
      && newCounter == (if counter != 0 then counter - 1 else Max(1, Max(epochSize / 16, epochSize - n)))
      && newEpoch == epoch && newCollected == collected
  }

  /** Flags that were set stay set. */
  ghost predicate MoreCollected(a: seq<bool>, b: seq<bool>) {
    |a| == |b| && forall i :: 0 <= i < |a| && a[i] ==> b[i]
  }

  lemma OwnStays<E>(c: Layout<E>, t: seq<E>, a: seq<bool>, b: seq<bool>)
    requires Own(c, t, a) && MoreCollected(a, b)
    ensures Own(c, t, b)
  {
  }

  lemma RoomStays<E>(c: Layout<E>, a: seq<bool>, b: seq<bool>, e: E)
    requires MoreCollected(a, b)
    ensures HasRoom(c, a, e) ==> HasRoom(c, b, e)
  {
    if HasRoom(c, a, e) {
      var k :| 0 <= k < 8 && c.locs(e)[k] < |a| && a[c.locs(e)[k]];
      assert b[c.locs(e)[k]];
    }
  }

  lemma PlaceOwn<E(!new)>(c: Layout<E>, t: seq<E>, a: seq<bool>, l: nat, e: E)
    requires Own(c, t, a) && l < |t| && At(c, e, l)
    ensures Own(c, t[l := e], a[l := false]) && Own(c, t[l := e], a)
  {
  }

  /** e went into the collected slot l, and is kept there. */
  ghost predicate Stored<E>(t0: seq<E>, flags0: seq<bool>, e: E, l: nat, t: seq<E>, flags: seq<bool>) {
    l < |t0| == |flags0| && flags0[l] && t == t0[l := e] && flags == flags0[l := false]
  }

  class Cache<E(==, !new)> {
    const layout: Layout<E>
    const table: array<E>
    const collected: array<bool>
    const epochFlags: array<bool>
    const depthLimit: nat
    const epochSize: nat
    var epochCounter: nat

    ghost predicate Valid()
      reads this, table, collected, epochFlags
    {
      && table.Length == collected.Length == epochFlags.Length == layout.size
      && collected != epochFlags && table as object != collected && table as object != epochFlags
      && LocsOk(layout) && epochSize > 0
      && Own(layout, table[..], collected[..]) && Unique(layout, table[..])
    }

    /** An empty cache of 2^depth slots, or of any size that its locations respect. */
    constructor (l: Layout<E>, depth: nat)
      requires LocsOk(l)
      ensures Valid() && layout == l && depthLimit == depth && epochCounter == epochSize == Max(1, 45 * l.size / 100)
      ensures table[..] == seq(l.size, _ => l.filler) && forall i :: 0 <= i < l.size ==> collected[i] && !epochFlags[i]
      ensures fresh(table) && fresh(collected) && fresh(epochFlags)
    {
      layout, depthLimit := l, depth;
      table := new E[l.size](_ => l.filler);
      collected := new bool[l.size](_ => true);
      epochFlags := new bool[l.size](_ => false);
      epochSize := Max(1, 45 * l.size / 100);
      epochCounter := Max(1, 45 * l.size / 100);
    }

    /** Counts down to the next scan; a scan ages the slots once enough recent ones are in use. */
    method EpochCheck()
      requires Valid()
      modifies this`epochCounter, collected, epochFlags
      ensures Valid() && MoreCollected(old(collected[..]), collected[..])
      ensures Checked(epochSize, old(epochCounter), old(epochFlags[..]), old(collected[..]), epochCounter,
                      epochFlags[..], collected[..])
    {
      if epochCounter != 0 {
        epochCounter := epochCounter - 1;
        return;
      }
      var n := CountLive();
      if n >= epochSize {
        ghost var was := collected[..];
        Age();
        OwnStays(layout, table[..], was, collected[..]);
        epochCounter := epochSize;
      } else {
        epochCounter := Max(1, Max(epochSize / 16, epochSize - n));
      }
    }

    method CountLive() returns (n: nat)
      requires Valid()
      ensures n == Live(epochFlags[..], collected[..], table.Length)
    {
      n := 0;
      for i := 0 to table.Length
        invariant n == Live(epochFlags[..], collected[..], i)
      {
        n := n + if epochFlags[i] && !collected[i] then 1 else 0;
      }
    }

    method Age()
      requires collected.Length == epochFlags.Length && collected != epochFlags
      modifies collected, epochFlags
      ensures Aged(old(epochFlags[..]), old(collected[..]), epochFlags[..], collected[..])
    {
      for i := 0 to epochFlags.Length
        invariant forall j :: 0 <= j < i ==>
          !epochFlags[j] && collected[j] == (old(collected[j]) || !old(epochFlags[j]))
        invariant forall j :: i <= j < epochFlags.Length ==>
          epochFlags[j] == old(epochFlags[j]) && collected[j] == old(collected[j])
      {
        if epochFlags[i] {
          epochFlags[i] := false;
        } else {
          collected[i] := true;
        }
      }
    }

    /** The first of e's locations that holds e. */
    method Locate(e: E) returns (k: nat)
      requires Valid()
      ensures k <= 8 && (k < 8 <==> Found(layout, table[..], e))
      ensures k < 8 ==> table[layout.locs(e)[k]] == e
    {
      var locs := layout.locs(e);
      k := 0;
      while k < 8
        invariant k <= 8 && forall j :: 0 <= j < k ==> table[locs[j]] != e
      {
        if table[locs[k]] == e {
          assert At(layout, e, locs[k]) && table[..][locs[k]] == e;
          return;
        }
        k := k + 1;
      }
    }

    /** The first of e's locations that may be overwritten. */
    method FindFree(e: E) returns (k: nat)
      requires Valid()
      ensures k <= 8 && (k < 8 ==> FirstRoom(layout.locs(e), collected[..], k))
      ensures k == 8 ==> !HasRoom(layout, collected[..], e)
    {
      var locs := layout.locs(e);
      k := 0;
      while k < 8 && !collected[locs[k]]
        invariant k <= 8 && forall j :: 0 <= j < k ==> !collected[locs[j]]
      {
        k := k + 1;
      }
    }

    /** The location after the last one used; the second one to begin with. */
    method NextLocation(e: E, last: nat) returns (l: nat)
      requires Valid()
      ensures At(layout, e, l) && l < layout.size
      ensures l == NextSlot(layout.locs(e), last)
    {
      var locs := layout.locs(e);
      var k := 0;
      while k < 8 && locs[k] != last
        invariant 0 <= k <= 8 && IndexOf(locs, last, 0) == IndexOf(locs, last, k)
      {
        k := k + 1;
      }
      l := locs[(1 + k) % 8];
    }

    /** Looks e up; with erase, its slot may be overwritten from now on. */
    method Contains(e: E, erase: bool) returns (found: bool)
      requires Valid()
      modifies collected
      ensures Valid() && (found <==> Found(layout, table[..], e))
      ensures !found || !erase ==> collected[..] == old(collected[..])
      ensures found && erase ==>
        exists k :: 0 <= k < 8 && table[layout.locs(e)[k]] == e &&
          collected[..] == old(collected[..])[layout.locs(e)[k] := true]
    {
      var k := Locate(e);
      found := k < 8;
      if found && erase {
        ghost var was := collected[..];
        collected[layout.locs(e)[k]] := true;
        OwnStays(layout, table[..], was, collected[..]);
      }
    }

    /** Puts e into slot l, which may be overwritten, and keeps it. */
    method Put(e: E, l: nat, epoch: bool)
      requires Valid() && l < layout.size && At(layout, e, l) && (e != layout.filler ==> e !in table[..])
      modifies table, collected, epochFlags
      ensures Valid() && table[..] == old(table[..])[l := e] && collected[..] == old(collected[..])[l := false]
      ensures epochFlags[..] == old(epochFlags[..])[l := epoch]
    {
      PlaceOwn(layout, table[..], collected[..], l, e);
      table[l] := e;
      collected[l] := false;
      epochFlags[l] := epoch;
    }

    /** Exchanges e with the element of slot l. */
    method Swap(e: E, l: nat, epoch: bool) returns (y: E, last: bool)
      requires Valid() && l < layout.size && At(layout, e, l) && (e != layout.filler ==> e !in table[..])
      modifies table, epochFlags
      ensures Valid() && table[..] == old(table[..])[l := e] && y == old(table[l])
      ensures epochFlags[..] == old(epochFlags[..])[l := epoch] && last == old(epochFlags[l])
    {
      PlaceOwn(layout, table[..], collected[..], l, e);
      y, last := table[l], epochFlags[l];
      table[l] := e;
      epochFlags[l] := epoch;
    }

    /** The slots with their epoch flags. */
    ghost function Contents(): seq<Cell<E>>
      requires Valid()
      reads this, table, collected, epochFlags
    {
      Cells(table[..], epochFlags[..])
    }

    /** The search for room under way: e, from epoch recent, is in hand after the given moves. */
    ghost predicate Searching(t0: seq<Cell<E>>, path: seq<Cell<E>>, slots: seq<nat>, e: E, recent: bool, last: nat)
      reads this, table, collected, epochFlags
    {
      && Valid() && Path(layout, t0, collected[..], path, slots) && Contents() == Walked(t0, path, slots, |slots|)
      && path[|slots|] == Cell(e, recent) && last == LastSlot(layout, slots, |slots|)
    }

    /** Exchanges the element in hand, which finds no room, with that of its next location. */
    method Move(e: E, recent: bool, last: nat, ghost t0: seq<Cell<E>>, ghost path: seq<Cell<E>>,
                ghost slots: seq<nat>)
      returns (y: E, epoch: bool, l: nat, ghost newPath: seq<Cell<E>>, ghost newSlots: seq<nat>)
      requires Searching(t0, path, slots, e, recent, last) && !HasRoom(layout, collected[..], e)
      requires (e != layout.filler ==> e !in table[..])
      modifies table, epochFlags
      ensures Searching(t0, newPath, newSlots, y, epoch, l) && path <= newPath && |newSlots| == |slots| + 1
      ensures At(layout, e, l) && l < layout.size && !collected[l]
      ensures table[..] == old(table[..])[l := e] && y == old(table[l])
    {
      l := NextLocation(e, last);
      NotCollected(layout, e, l, collected[..]);
      ghost var t, epochs := table[..], epochFlags[..];
      newPath, newSlots := path + [Contents()[l]], slots + [l];
      PathGrows(layout, t0, collected[..], path, slots, l, Contents(), newPath, newSlots);
      CellsPut(t, epochs, l, e, recent);
      y, epoch := Swap(e, l, recent);
    }

    /** Puts the element in hand into its first location that may be overwritten. */
    method Settle(e: E, recent: bool, k: nat, ghost t0: seq<Cell<E>>, ghost path: seq<Cell<E>>,
                  ghost slots: seq<nat>, ghost last: nat)
      requires Searching(t0, path, slots, e, recent, last) && FirstRoom(layout.locs(e), collected[..], k)
      requires (e != layout.filler ==> e !in table[..]) && table[layout.locs(e)[k]] == t0[layout.locs(e)[k]].item
      modifies table, collected, epochFlags
      ensures Valid() && RoomTaken(layout, t0, old(collected[..]), path, slots, Contents(), collected[..],
                                   old(table[layout.locs(e)[k]]), k)
      ensures table[..] == old(table[..])[layout.locs(e)[k] := e]
    {
      var l := layout.locs(e)[k];
      CellsPut(table[..], epochFlags[..], l, e, recent);
      Put(e, l, recent);
    }

    /**
     The search for room: at each depth take a free location or swap with an occupied one.
     Without room the element in hand is dropped; otherwise only what was in a collected
     slot is overwritten.
     */
    method Place(e0: E) returns (dropped: bool, ghost lost: E, ghost path: seq<Cell<E>>, ghost slots: seq<nat>)
      requires Valid() && !Found(layout, table[..], e0)
      modifies table, collected, epochFlags
      ensures Valid() && Lost(layout, old(table[..]), e0, table[..], lost)
      ensures Searched(layout, depthLimit, old(Contents()), old(collected[..]), e0, path, slots, Contents(),
                       collected[..], dropped, lost)
      ensures !dropped ==> exists i :: 0 <= i < layout.size && old(collected[i]) && lost == old(table[i])
      ensures dropped ==> collected[..] == old(collected[..]) && (lost != layout.filler ==> lost !in table[..])
      ensures depthLimit > 0 && HasRoom(layout, old(collected[..]), e0) ==>
        !dropped && exists l: nat ::
          At(layout, e0, l) && Stored(old(table[..]), old(collected[..]), e0, l, table[..], collected[..])
    {
      ghost var t0, c0, flags := table[..], Contents(), collected[..];
      var e, epoch, last := e0, true, layout.size;
      path, slots := [Cell(e0, true)], [];
      var depth := 0;
      while depth < depthLimit
        invariant 0 <= depth == |slots| <= depthLimit && collected[..] == flags
        invariant Searching(c0, path, slots, e, epoch, last) && path[0] == Cell(e0, true)
        invariant Moving(layout, t0, e0, table[..], e)
        invariant forall i :: 0 <= i < layout.size && flags[i] ==> table[i] == t0[i]
        invariant depth == 0 ==> e == e0 && table[..] == t0
        invariant depth > 0 ==> !HasRoom(layout, flags, e0)
      {
        var k := FindFree(e);
        if k < 8 {
          ghost var l := layout.locs(e)[k];
          assert At(layout, e, l) && flags[l];
          PlaceLoses(layout, t0, e0, table[..], e, l);
          Settle(e, epoch, k, c0, path, slots, last);
          assert depth == 0 ==> Stored(t0, flags, e0, l, table[..], collected[..]);
          return false, t0[l], path, slots;
        }
        ghost var t, x := table[..], e;
        e, epoch, last, path, slots := Move(e, epoch, last, c0, path, slots);
        SwapKeeps(layout, t0, e0, t, x, last);
        depth := depth + 1;
      }
      return true, e, path, slots;
    }

    /**
     Inserts e0: at most one element, perhaps e0 itself, stops being found. epochs and flags are what the
     check leaves; a new element then searches for room, a known one is kept and is recent again.
     */
    method Insert(e0: E)
      returns (dropped: bool, ghost lost: E, ghost epochs: seq<bool>, ghost flags: seq<bool>, ghost path: seq<Cell<E>>,
               ghost slots: seq<nat>)
      requires Valid()
      modifies this`epochCounter, table, collected, epochFlags
      ensures Valid() && Lost(layout, old(table[..]), e0, table[..], lost)
      ensures Checked(epochSize, old(epochCounter), old(epochFlags[..]), old(collected[..]),
                      epochCounter, epochs, flags)
      ensures old(Found(layout, table[..], e0)) ==> table[..] == old(table[..]) && !dropped
      ensures old(Found(layout, table[..], e0)) ==>
        exists l :: 0 <= l < layout.size && At(layout, e0, l) && table[l] == e0 &&
          collected[..] == flags[l := false] && epochFlags[..] == epochs[l := true]
      ensures |epochs| == table.Length
      ensures !old(Found(layout, table[..], e0)) ==>
        Searched(layout, depthLimit, Cells(old(table[..]), epochs), flags, e0, path, slots, Contents(), collected[..],
                 dropped, lost)
      ensures depthLimit > 0 && HasRoom(layout, old(collected[..]), e0) ==> !dropped && Found(layout, table[..], e0)
    {
      ghost var flags0 := collected[..];
      EpochCheck();
      ghost var t0 := table[..];
      epochs, flags, path, slots := epochFlags[..], collected[..], [], [];
      RoomStays(layout, flags0, flags, e0);
      var k := Locate(e0);
      if k < 8 {
        var l := layout.locs(e0)[k];
        assert At(layout, e0, l);
        collected[l] := false;
        epochFlags[l] := true;
        dropped, lost := false, e0;
        return;
      }
      dropped, lost, path, slots := Place(e0);
      if depthLimit > 0 && HasRoom(layout, flags0, e0) {
        ghost var l: nat :| At(layout, e0, l) && Stored(t0, flags, e0, l, table[..], collected[..]);
        assert table[..][l] == e0;
      }
    }
  }

  lemma NotCollected<E(!new)>(c: Layout<E>, e: E, l: nat, flags: seq<bool>)
    requires LocsOk(c) && |flags| == c.size && At(c, e, l) && forall j :: 0 <= j < 8 ==> !flags[c.locs(e)[j]]
    ensures l < c.size && !flags[l]
  {
    var j :| 0 <= j < 8 && c.locs(e)[j] == l;
  }

  // ---- setting up

  /** The base-two logarithm, rounded down. */
  function FloorLog2(n: nat): (d: nat)
    requires n > 0
    ensures Pow(2, d) <= n < Pow(2, d + 1)
  {
    if n == 1 then 0 else 1 + FloorLog2(n / 2)
  }

  /** The locations of an element: its eight hashes, reduced to the table. */
  function LocsBy<E>(hash: (E, nat) -> nat, size: nat): E -> Locs
    requires size > 0
  {
    e => seq(8, k requires 0 <= k < 8 => hash(e, k) % size)
  }

  /** A cache of the greatest power of two within newSize, and of two slots at least. */
  method Setup<E(==, !new)>(newSize: nat, hash: (E, nat) -> nat, filler: E) returns (c: Cache<E>)
    ensures fresh(c) && c.Valid() && c.depthLimit > 0
    ensures c.layout.size == Pow(2, c.depthLimit) <= Max(2, newSize) < 2 * c.layout.size
    ensures c.layout.locs == LocsBy(hash, c.layout.size) && c.layout.filler == filler
    ensures forall e :: Found(c.layout, c.table[..], e) ==> e == filler
  {
    var depth := FloorLog2(Max(2, newSize));
    c := new Cache<E>(Layout(Pow(2, depth), LocsBy(hash, Pow(2, depth)), filler), depth);
  }
}
