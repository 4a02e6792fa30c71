/**
 The path of an insertion through the cuckoo cache: which elements are moved, from where to
 where, and why the search went on. Every element takes its epoch flag along.
 */
module CuckooPath {
  import opened CuckooModel

  /** What a slot holds, and whether that is of the latest epoch. */
  datatype Cell<!E> = Cell(item: E, recent: bool)

  ghost function Cells<E>(t: seq<E>, epochs: seq<bool>): seq<Cell<E>>
    requires |t| == |epochs|
  {
    seq(|t|, i requires 0 <= i < |t| => Cell(t[i], epochs[i]))
  }

  /** The first position from k on at which locs holds x, or eight. */
  function IndexOf(locs: Locs, x: nat, k: nat): (r: nat)
    requires k <= 8
    ensures k <= r <= 8 && (r < 8 ==> locs[r] == x) && forall j :: k <= j < r ==> locs[j] != x
    decreases 8 - k
  {
    if k == 8 || locs[k] == x then k else IndexOf(locs, x, k + 1)
  }

  /** The location after the last one used, cyclically; the second one to begin with. */
  function NextSlot(locs: Locs, last: nat): nat { locs[(1 + IndexOf(locs, last, 0)) % 8] }

  /** Going on from the last location leads to another one, if there are eight. */
  lemma NextSlotDiffers(locs: Locs, last: nat)
    requires forall i, j :: 0 <= i < j < 8 ==> locs[i] != locs[j]
    ensures NextSlot(locs, last) != last
  {
    var k := IndexOf(locs, last, 0);
    if k < 8 {
      assert locs[k] == last && (1 + k) % 8 != k;
    }
  }

  /** May one of e's locations be overwritten? */
  predicate HasRoom<E>(c: Layout<E>, collected: seq<bool>, e: E) {
    exists k :: 0 <= k < 8 && c.locs(e)[k] < |collected| && collected[c.locs(e)[k]]
  }

  /** The table after the first n moves: each puts one of the path into a slot. */
  ghost function Walked<E>(t: seq<Cell<E>>, path: seq<Cell<E>>, slots: seq<nat>, n: nat): (u: seq<Cell<E>>)
    requires n <= |slots| && n <= |path| && forall i :: 0 <= i < |slots| ==> slots[i] < |t|
    ensures |u| == |t|
  {
    if n == 0 then t else Walked(t, path, slots, n - 1)[slots[n - 1] := path[n - 1]]
  }

  ghost predicate Slots<E>(t: seq<Cell<E>>, slots: seq<nat>) { forall i :: 0 <= i < |slots| ==> slots[i] < |t| }

  /** The slot taken before move i; none, which is no slot of the table, before the first. */
  ghost function LastSlot<E>(c: Layout<E>, slots: seq<nat>, i: nat): nat
    requires i <= |slots|
  {
    if i == 0 then c.size else slots[i - 1]
  }

  /** Element i of the path finds all its locations kept, and takes the next of them from element i + 1. */
  ghost predicate Moves<E>(c: Layout<E>, t: seq<Cell<E>>, collected: seq<bool>, path: seq<Cell<E>>, slots: seq<nat>,
                           i: nat)
    requires i < |slots| < |path| && Slots(t, slots)
  {
    && !HasRoom(c, collected, path[i].item)
    && slots[i] == NextSlot(c.locs(path[i].item), LastSlot(c, slots, i))
    && path[i + 1] == Walked(t, path, slots, i)[slots[i]]
  }

  ghost predicate Path<E>(c: Layout<E>, t: seq<Cell<E>>, collected: seq<bool>, path: seq<Cell<E>>, slots: seq<nat>) {
    && |path| == |slots| + 1 && Slots(t, slots)
    && forall i :: 0 <= i < |slots| ==> Moves(c, t, collected, path, slots, i)
  }

  lemma {:induction false} WalkedPrefix<E>(t: seq<Cell<E>>, path: seq<Cell<E>>, slots: seq<nat>, path': seq<Cell<E>>,
                                           slots': seq<nat>, n: nat)
    requires n <= |slots| && n <= |path| && path <= path' && slots <= slots'
    requires forall i :: 0 <= i < |slots'| ==> slots'[i] < |t|
    ensures Walked(t, path, slots, n) == Walked(t, path', slots', n)
  {
    if n > 0 {
      WalkedPrefix(t, path, slots, path', slots', n - 1);
    }
  }

  lemma MovesStay<E>(c: Layout<E>, t: seq<Cell<E>>, collected: seq<bool>, path: seq<Cell<E>>, slots: seq<nat>,
                     path': seq<Cell<E>>, slots': seq<nat>, i: nat)
    requires i < |slots| < |path| && path <= path' && slots <= slots' && |slots'| < |path'| && Slots(t, slots')
    requires Slots(t, slots) && Moves(c, t, collected, path, slots, i)
    ensures Moves(c, t, collected, path', slots', i)
  {
    WalkedPrefix(t, path, slots, path', slots', i);
  }

  /** One move more: the last of the path takes slot l from the cell that is there now. */
  lemma PathGrows<E>(c: Layout<E>, t: seq<Cell<E>>, collected: seq<bool>, path: seq<Cell<E>>, slots: seq<nat>, l: nat,
                     u: seq<Cell<E>>, path': seq<Cell<E>>, slots': seq<nat>)
    requires Path(c, t, collected, path, slots) && u == Walked(t, path, slots, |slots|) && l < |t|
    requires !HasRoom(c, collected, path[|slots|].item)
    requires l == NextSlot(c.locs(path[|slots|].item), LastSlot(c, slots, |slots|))
    requires path' == path + [u[l]] && slots' == slots + [l]
    ensures Path(c, t, collected, path', slots') && Walked(t, path', slots', |slots'|) == u[l := path[|slots|]]
  {
    var n := |slots|;
    assert path'[n] == path[n] && path'[n + 1] == u[l] && slots'[n] == l;
    assert Slots(t, slots');
    assert LastSlot(c, slots', n) == LastSlot(c, slots, n);
    WalkedPrefix(t, path, slots, path', slots', n);
    LastMoves(c, t, collected, path', slots', u);
    forall i | 0 <= i < n
      ensures Moves(c, t, collected, path', slots', i)
    {
      MovesStay(c, t, collected, path, slots, path', slots', i);
    }
  }

  lemma LastMoves<E>(c: Layout<E>, t: seq<Cell<E>>, collected: seq<bool>, path: seq<Cell<E>>, slots: seq<nat>,
                     u: seq<Cell<E>>)
    requires 0 < |slots| < |path| && Slots(t, slots) && u == Walked(t, path, slots, |slots| - 1)
    requires var n := |slots| - 1; !HasRoom(c, collected, path[n].item) && path[n + 1] == u[slots[n]]
    requires var n := |slots| - 1; slots[n] == NextSlot(c.locs(path[n].item), LastSlot(c, slots, n))
    ensures Moves(c, t, collected, path, slots, |slots| - 1)
  {
  }

  /** The first of the locations that may be overwritten. */
  ghost predicate FirstRoom(locs: Locs, collected: seq<bool>, k: nat) {
    && k < 8 && (forall j :: 0 <= j <= k ==> locs[j] < |collected|)
    && collected[locs[k]] && forall j :: 0 <= j < k ==> !collected[locs[j]]
  }

  /**
   The whole of an insertion that searches for room. The last of the path finds room, within the limit on the
   number of moves, and overwrites what may be overwritten there; or the limit is reached and it is dropped.
   */
  ghost predicate Searched<E>(c: Layout<E>, limit: nat, t: seq<Cell<E>>, collected: seq<bool>, e: E,
                              path: seq<Cell<E>>, slots: seq<nat>, t': seq<Cell<E>>, collected': seq<bool>,
                              dropped: bool, lost: E) {
    && Path(c, t, collected, path, slots) && path[0] == Cell(e, true)
    && if dropped then
         && |slots| == limit && lost == path[limit].item
         && t' == Walked(t, path, slots, limit) && collected' == collected
       else
         |slots| < limit && exists k :: RoomTaken(c, t, collected, path, slots, t', collected', lost, k)
  }

  /** The last of the path is put into its location number k, which may be overwritten. */
  ghost predicate RoomTaken<E>(c: Layout<E>, t: seq<Cell<E>>, collected: seq<bool>, path: seq<Cell<E>>,
                               slots: seq<nat>, t': seq<Cell<E>>, collected': seq<bool>, lost: E, k: nat)
    requires |path| == |slots| + 1 && Slots(t, slots)
  {
    var e := path[|slots|];
    && FirstRoom(c.locs(e.item), collected, k)
    && var l := c.locs(e.item)[k];
       && l < |t| && lost == t[l].item && collected' == collected[l := false]
       && t' == Walked(t, path, slots, |slots|)[l := e]
  }

  lemma CellsPut<E>(t: seq<E>, epochs: seq<bool>, l: nat, e: E, recent: bool)
    requires |t| == |epochs| && l < |t|
    ensures Cells(t[l := e], epochs[l := recent]) == Cells(t, epochs)[l := Cell(e, recent)]
  {
  }
}
