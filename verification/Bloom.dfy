/**
 The rolling bloom filter: two-bit tags, sixteen to a word, that say in which of three
 generations a position was last set. Positions of the oldest generation are wiped when
 its number comes up again.
 */
module Bloom {
  type Cell = bv32
  /** Where a tag starts in its word: twice the low four bits of a position. */
  type Slot = s: bv5 | s & 1 == 0 witness 0

  /** A position: a word and one of its sixteen tags. */
  datatype Pos = Pos(word: nat, slot: Slot)

  function GetTag(cell: Cell, i: Slot): Cell { (cell >> i) & 3 }
  function PutTag(cell: Cell, i: Slot, v: Cell): Cell { (cell & !Mask(i)) | (v << i) }

  function Mask(i: bv5): Cell { (3 as Cell) << i }

  lemma MasksDisjoint(i: bv5, j: bv5)
    requires i & 1 == 0 && j & 1 == 0 && i != j
    ensures Mask(i) & Mask(j) == 0
  {
  }

  lemma InsideMask(v: Cell, i: bv5)
    requires v < 4
    ensures (v << i) & Mask(i) == v << i
  {
  }

  /** Bits outside a mask are left alone. */
  lemma OutsideMask(c: Cell, m: Cell, n: Cell, v: Cell)
    requires m & n == 0 && v & m == v
    ensures ((c & !m) | v) & n == c & n
  {
  }

  lemma SameUnderMask(x: Cell, c: Cell, j: bv5)
    requires x & Mask(j) == c & Mask(j)
    ensures (x >> j) & 3 == (c >> j) & 3
  {
  }

  lemma ReadBack(c: Cell, i: bv5, v: Cell)
    requires v < 4 && i & 1 == 0
    ensures (((c & !Mask(i)) | (v << i)) >> i) & 3 == v
  {
  }

  lemma ReadOther(c: Cell, x: Cell, i: bv5, j: bv5, v: Cell)
    requires v < 4 && i & 1 == 0 && j & 1 == 0 && i != j && x == (c & !Mask(i)) | (v << i)
    ensures (x >> j) & 3 == (c >> j) & 3
  {
    assert x & Mask(j) == c & Mask(j) by {
      MasksDisjoint(i, j);
      InsideMask(v, i);
      OutsideMask(c, Mask(i), Mask(j), v << i);
    }
    SameUnderMask(x, c, j);
  }

  /** Writing one tag sets that tag, and leaves every other alone. */
  lemma PutGetSame(cell: Cell, i: Slot, v: Cell)
    requires v < 4
    ensures GetTag(PutTag(cell, i, v), i) == v
  {
    ReadBack(cell, i, v);
  }

  lemma PutGetOther(cell: Cell, i: Slot, j: Slot, v: Cell)
    requires v < 4 && i != j
    ensures GetTag(PutTag(cell, i, v), j) == GetTag(cell, j)
  {
    ReadOther(cell, PutTag(cell, i, v), i, j, v);
  }

  function Tag(d: seq<Cell>, p: Pos): Cell
    requires p.word < |d|
  {
    GetTag(d[p.word], p.slot)
  }

  /** The tag at p is v, all others are as before. */
  ghost predicate Written(d: seq<Cell>, e: seq<Cell>, p: Pos, v: Cell) {
    |d| == |e| && forall q: Pos {:trigger Tag(e, q)} :: q.word < |d| ==> Tag(e, q) == if q == p then v else Tag(d, q)
  }

  lemma PutWrites(d: seq<Cell>, p: Pos, v: Cell)
    requires p.word < |d| && v < 4
    ensures Written(d, d[p.word := PutTag(d[p.word], p.slot, v)], p, v)
  {
    var e := d[p.word := PutTag(d[p.word], p.slot, v)];
    forall q: Pos | q.word < |d|
      ensures Tag(e, q) == if q == p then v else Tag(d, q)
    {
      if q == p {
        PutGetSame(d[p.word], p.slot, v);
      } else if q.word == p.word {
        PutGetOther(d[p.word], p.slot, q.slot, v);
      }
    }
  }

  // ---- generations

  function Next(g: Cell): Cell { if g == 3 then 1 else g + 1 }

  /** How many generations ago the tag t was current, when g is. */
  function Age(g: Cell, t: Cell): nat { if t == g then 0 else if Next(t) == g then 1 else 2 }

  /** Every position of the key is tagged with one of the last generations. */
  ghost predicate Remembers(d: seq<Cell>, g: Cell, positions: seq<Pos>, age: nat) {
    forall n :: 0 <= n < |positions| ==>
      positions[n].word < |d| && Tag(d, positions[n]) in {1, 2, 3} && Age(g, Tag(d, positions[n])) <= age
  }

  /** Tags of generation g are wiped. */
  ghost predicate Wiped(d: seq<Cell>, e: seq<Cell>, g: Cell) {
    |d| == |e| && forall q: Pos {:trigger Tag(e, q)} ::
      q.word < |d| ==> Tag(e, q) == if Tag(d, q) == g then 0 else Tag(d, q)
  }

  /** Starting a generation makes every tag one generation older, and wipes only the oldest. */
  lemma WipeKeeps(d: seq<Cell>, e: seq<Cell>, g: Cell, positions: seq<Pos>, age: nat)
    requires g in {1, 2, 3} && age <= 1 && Remembers(d, g, positions, age) && Wiped(d, e, Next(g))
    ensures Remembers(e, Next(g), positions, age + 1)
  {
  }

  // ---- the filter

  /** The tag after wiping generation g. */
  function Kept(t: Cell, g: Cell): Cell { if t == g then 0 else t }

  /** The tag at i is v, all others of the word are as before. */
  ghost predicate SlotWritten(cell: Cell, c: Cell, i: Slot, v: Cell) {
    forall j: Slot {:trigger GetTag(c, j)} :: GetTag(c, j) == if i == j then v else GetTag(cell, j)
  }

  lemma PutSlot(cell: Cell, i: Slot, v: Cell)
    requires v < 4
    ensures SlotWritten(cell, PutTag(cell, i, v), i, v)
  {
    forall j: Slot
      ensures GetTag(PutTag(cell, i, v), j) == if i == j then v else GetTag(cell, j)
    {
      if i == j {
        PutGetSame(cell, i, v);
      } else {
        PutGetOther(cell, i, j, v);
      }
    }
  }

  method WipeTag(cell: Cell, i: Slot, g: Cell) returns (c: Cell)
    ensures SlotWritten(cell, c, i, Kept(GetTag(cell, i), g))
  {
    c := cell;
    if GetTag(cell, i) == g {
      PutSlot(cell, i, 0);
      c := PutTag(cell, i, 0);
    }
  }

  /** The tags before slot i are wiped of generation g, the others are as before. */
  ghost predicate WipedBelow(cell: Cell, c: Cell, g: Cell, i: bv5) {
    forall j: Slot {:trigger GetTag(c, j)} ::
      GetTag(c, j) == if j < i then Kept(GetTag(cell, j), g) else GetTag(cell, j)
  }

  lemma SlotOrder(i: bv5, j: Slot)
    requires i & 1 == 0 && i < 30
    ensures (i + 2) & 1 == 0 && i + 2 <= 30 && 30 - (i + 2) < 30 - i && (j < i + 2 <==> j < i || j == i)
  {
  }

  lemma WipedNext(cell: Cell, c: Cell, d: Cell, g: Cell, i: Slot)
    requires i < 30 && WipedBelow(cell, c, g, i) && SlotWritten(c, d, i, Kept(GetTag(c, i), g))
    ensures WipedBelow(cell, d, g, i + 2)
  {
    forall j: Slot
      ensures GetTag(d, j) == if j < i + 2 then Kept(GetTag(cell, j), g) else GetTag(cell, j)
    {
      SlotOrder(i, j);
    }
  }

  lemma LastSlot(j: Slot)
    ensures j < 30 || j == 30
  {
  }

  /** Every tag of the word is wiped of generation g. */
  ghost predicate WordWiped(cell: Cell, c: Cell, g: Cell) {
    forall j: Slot {:trigger GetTag(c, j)} :: GetTag(c, j) == Kept(GetTag(cell, j), g)
  }

  method WipeWord(cell: Cell, g: Cell) returns (c: Cell)
    ensures WordWiped(cell, c, g)
  {
    c := cell;
    var i: bv5 := 0;
    while i < 30
      invariant i & 1 == 0 && i <= 30 && WipedBelow(cell, c, g, i)
      decreases 30 - i
    {
      var d := WipeTag(c, i, g);
      WipedNext(cell, c, d, g, i);
      SlotOrder(i, 0);
      c, i := d, i + 2;
    }
    var d := WipeTag(c, i, g);
    forall j: Slot
      ensures GetTag(d, j) == Kept(GetTag(cell, j), g)
    {
      LastSlot(j);
    }
    c := d;
  }

  /** The first key that is at most `age` generations old, of n keys of which `current` are in this generation. */
  function Since(n: nat, current: nat, perGeneration: nat, age: nat): int {
    n - current - if age == 0 then 0 else if age == 1 then perGeneration else 2 * perGeneration
  }

  /** One of the keys from the given one on has the position. */
  ghost predicate CoveredSince<Key(!new)>(keys: seq<Key>, positions: Key -> seq<Pos>, q: Pos, from: int) {
    exists i :: 0 <= i < |keys| && from <= i && q in positions(keys[i])
  }

  /** Every tag was left by a key of its generation or a later one. */
  ghost predicate Backed<Key(!new)>(d: seq<Cell>, g: Cell, keys: seq<Key>, positions: Key -> seq<Pos>, current: nat,
    per: nat) {
    forall q: Pos {:trigger Tag(d, q)} :: q.word < |d| && Tag(d, q) != 0 ==>
      Tag(d, q) in {1, 2, 3} && CoveredSince(keys, positions, q, Since(|keys|, current, per, Age(g, Tag(d, q))))
  }

  /** Starting a generation after a full one leaves no tag without a key. */
  lemma WipeBacks<Key(!new)>(d: seq<Cell>, e: seq<Cell>, g: Cell, keys: seq<Key>, positions: Key -> seq<Pos>, per: nat)
    requires g in {1, 2, 3} && Backed(d, g, keys, positions, per, per) && Wiped(d, e, Next(g))
    ensures Backed(e, Next(g), keys, positions, 0, per)
  {
    forall q: Pos | q.word < |e| && Tag(e, q) != 0
      ensures Tag(e, q) in {1, 2, 3} && CoveredSince(keys, positions, q, Since(|keys|, 0, per, Age(Next(g), Tag(e, q))))
    {
      assert Tag(d, q) == Tag(e, q) && Tag(d, q) != Next(g);
      assert Since(|keys|, 0, per, Age(Next(g), Tag(e, q))) == Since(|keys|, per, per, Age(g, Tag(d, q)));
    }
  }

  lemma TagBacks<Key(!new)>(d: seq<Cell>, e: seq<Cell>, g: Cell, keys: seq<Key>, key: Key, positions: Key -> seq<Pos>,
    current: nat, per: nat)
    requires g in {1, 2, 3} && Backed(d, g, keys, positions, current, per) && Tagged(d, e, g, positions(key))
    ensures Backed(e, g, keys + [key], positions, current + 1, per)
  {
    var all := keys + [key];
    forall q: Pos | q.word < |e| && Tag(e, q) != 0
      ensures Tag(e, q) in {1, 2, 3}
      ensures CoveredSince(all, positions, q, Since(|all|, current + 1, per, Age(g, Tag(e, q))))
    {
      if q in positions(key) {
        assert all[|keys|] == key;
      } else {
        var from := Since(|keys|, current, per, Age(g, Tag(d, q)));
        var i :| 0 <= i < |keys| && from <= i && q in positions(keys[i]);
        assert all[i] == keys[i];
      }
    }
  }

  class Filter<Key(!new)> {
    const nEntriesPerGeneration: nat
    /** How many keys the filter is to remember. */
    ghost const nElements: nat
    const data: array<Cell>
    var nEntriesThisGeneration: nat
    var nGeneration: Cell
    /** The positions that the hash functions give a key, under the present tweak. */
    var positions: Key -> seq<Pos>
    /** The keys inserted since the last reset. */
    ghost var keys: seq<Key>

    /** The tweak places every key inside the table. */
    ghost predicate Placed()
      reads this
    {
      forall k, n :: 0 <= n < |positions(k)| ==> positions(k)[n].word < data.Length
    }

    /** Each key is remembered with tags no older than the key, and there are no other tags. */
    ghost predicate Valid()
      reads this, data
    {
      && nGeneration in {1, 2, 3} && Placed() && nEntriesPerGeneration == (nElements + 1) / 2
      && (forall i, age :: 0 <= i < |keys| && 0 <= age <= 2
            && i >= Since(|keys|, nEntriesThisGeneration, nEntriesPerGeneration, age)
            ==> Remembers(data[..], nGeneration, positions(keys[i]), age))
      && Backed(data[..], nGeneration, keys, positions, nEntriesThisGeneration, nEntriesPerGeneration)
    }

    constructor (elements: nat, words: nat, p: Key -> seq<Pos>)
      requires forall k, n :: 0 <= n < |p(k)| ==> p(k)[n].word < words
      ensures Valid() && keys == [] && nElements == elements && positions == p && data.Length == words && fresh(data)
    {
      nElements := elements;
      nEntriesPerGeneration := (elements + 1) / 2;
      data := new Cell[words](_ => 0);
      nEntriesThisGeneration, nGeneration, positions, keys := 0, 1, p, [];
    }

    /** Forgets everything, and takes a new tweak. */
    method Reset(p: Key -> seq<Pos>)
      requires Valid() && forall k, n :: 0 <= n < |p(k)| ==> p(k)[n].word < data.Length
      modifies this, data
      ensures Valid() && keys == [] && positions == p && nGeneration == 1 && nEntriesThisGeneration == 0
      ensures forall i :: 0 <= i < data.Length ==> data[i] == 0
    {
      nEntriesThisGeneration, nGeneration, positions, keys := 0, 1, p, [];
      for i := 0 to data.Length
        invariant forall j :: 0 <= j < i ==> data[j] == 0
        invariant nEntriesThisGeneration == 0 && nGeneration == 1 && positions == p && keys == []
      {
        data[i] := 0;
      }
    }

    method Wipe(g: Cell)
      modifies data
      ensures Wiped(old(data[..]), data[..], g)
    {
      ghost var was := data[..];
      for w := 0 to data.Length
        invariant forall v :: 0 <= v < w ==> WordWiped(was[v], data[v], g)
        invariant forall v :: w <= v < data.Length ==> data[v] == was[v]
      {
        data[w] := WipeWord(data[w], g);
      }
    }

    /** Moves on to the next generation. */
    method Advance()
      requires Valid() && nEntriesThisGeneration == nEntriesPerGeneration
      modifies this`nEntriesThisGeneration, this`nGeneration, data
      ensures Valid() && nEntriesThisGeneration == 0 && nGeneration == Next(old(nGeneration))
      ensures Wiped(old(data[..]), data[..], nGeneration)
    {
      ghost var g, d, per := nGeneration, data[..], nEntriesPerGeneration;
      forall i, age | 0 <= i < |keys| && 1 <= age <= 2 && i >= Since(|keys|, 0, nEntriesPerGeneration, age)
        ensures Remembers(d, g, positions(keys[i]), age - 1)
      {
        assert i >= Since(|keys|, nEntriesThisGeneration, nEntriesPerGeneration, age - 1);
      }
      nEntriesThisGeneration := 0;
      nGeneration := if nGeneration == 3 then 1 else nGeneration + 1;
      Wipe(nGeneration);
      WipeBacks(d, data[..], g, keys, positions, per);
      forall i, age | 0 <= i < |keys| && 0 <= age <= 2 && i >= Since(|keys|, 0, nEntriesPerGeneration, age)
        ensures Remembers(data[..], nGeneration, positions(keys[i]), age)
      {
        if age > 0 {
          WipeKeeps(d, data[..], g, positions(keys[i]), age - 1);
        }
      }
    }

    method Put(p: Pos)
      requires p.word < data.Length && nGeneration in {1, 2, 3}
      modifies data
      ensures Written(old(data[..]), data[..], p, nGeneration)
    {
      PutWrites(data[..], p, nGeneration);
      data[p.word] := PutTag(data[p.word], p.slot, nGeneration);
    }

    /** Tags every position of the list with the present generation. */
    method TagAll(p: seq<Pos>)
      requires nGeneration in {1, 2, 3} && forall n :: 0 <= n < |p| ==> p[n].word < data.Length
      modifies data
      ensures Tagged(old(data[..]), data[..], nGeneration, p)
    {
      ghost var d := data[..];
      for n := 0 to |p|
        invariant Tagged(d, data[..], nGeneration, p[..n])
      {
        ghost var e := data[..];
        Put(p[n]);
        TaggedNext(d, e, data[..], nGeneration, p, n);
      }
      assert p[..|p|] == p;
    }

    /** Counts the key in and tags its positions. */
    method Note(key: Key)
      requires Valid()
      modifies this`nEntriesThisGeneration, this`keys, data
      ensures Valid() && keys == old(keys) + [key] && nEntriesThisGeneration == old(nEntriesThisGeneration) + 1
      ensures Tagged(old(data[..]), data[..], nGeneration, positions(key))
    {
      ghost var d, n, k := data[..], |keys|, nEntriesThisGeneration;
      forall i, age | 0 <= i < n && 0 <= age <= 2 && i >= Since(n + 1, k + 1, nEntriesPerGeneration, age)
        ensures Remembers(d, nGeneration, positions(keys[i]), age)
      {
        assert i >= Since(n, k, nEntriesPerGeneration, age);
      }
      nEntriesThisGeneration := nEntriesThisGeneration + 1;
      TagAll(positions(key));
      forall i, age | 0 <= i < n && 0 <= age <= 2 && i >= Since(n + 1, k + 1, nEntriesPerGeneration, age)
        ensures Remembers(data[..], nGeneration, positions(keys[i]), age)
      {
        TaggedKeeps(d, data[..], nGeneration, positions(key), positions(keys[i]), age);
      }
      TaggedRemembers(d, data[..], nGeneration, positions(key));
      TagBacks(d, data[..], nGeneration, keys, key, positions, k, nEntriesPerGeneration);
      keys := keys + [key];
    }

    /** Moves on if the generation is full, then tags every position of the key with it. */
    method Insert(key: Key)
      requires Valid()
      modifies this, data
      ensures Valid() && keys == old(keys) + [key] && positions == old(positions)
      ensures var full := old(nEntriesThisGeneration) == nEntriesPerGeneration;
        && nEntriesThisGeneration == (if full then 1 else old(nEntriesThisGeneration) + 1)
        && nGeneration == (if full then Next(old(nGeneration)) else old(nGeneration))
        && Noted(old(data[..]), data[..], nGeneration, full, positions(key))
    {
      if nEntriesThisGeneration == nEntriesPerGeneration {
        Advance();
      }
      Note(key);
    }

    /**
     Is every position of the key tagged? So it is for the last nElements keys, and up to one
     and a half times as many.
     */
    method Contains(key: Key) returns (r: bool)
      requires Valid()
      ensures r <==> forall n :: 0 <= n < |positions(key)| ==> Tag(data[..], positions(key)[n]) != 0
      ensures forall i :: 0 <= i < |keys| && i >= |keys| - nElements && keys[i] == key ==> r
      ensures forall i ::
        0 <= i < |keys| && i >= |keys| - nEntriesThisGeneration - 2 * nEntriesPerGeneration && keys[i] == key ==> r
      ensures r ==> forall n :: 0 <= n < |positions(key)| ==>
        CoveredSince(keys, positions, positions(key)[n], |keys| - nEntriesThisGeneration - 2 * nEntriesPerGeneration)
    {
      var p := positions(key);
      for n := 0 to |p|
        invariant forall m :: 0 <= m < n ==> Tag(data[..], p[m]) != 0
      {
        if GetTag(data[p[n].word], p[n].slot) == 0 {
          assert Tag(data[..], p[n]) == 0;
          forall i | 0 <= i < |keys| && i >= Since(|keys|, nEntriesThisGeneration, nEntriesPerGeneration, 2)
            ensures keys[i] != key
          {
            assert Remembers(data[..], nGeneration, positions(keys[i]), 2);
          }
          return false;
        }
      }
      r := true;
      forall n | 0 <= n < |p|
        ensures CoveredSince(keys, positions, p[n], Since(|keys|, nEntriesThisGeneration, nEntriesPerGeneration, 2))
      {
        var from := Since(|keys|, nEntriesThisGeneration, nEntriesPerGeneration, Age(nGeneration, Tag(data[..], p[n])));
        assert CoveredSince(keys, positions, p[n], from);
        var i :| 0 <= i < |keys| && from <= i && p[n] in positions(keys[i]);
        assert Since(|keys|, nEntriesThisGeneration, nEntriesPerGeneration, 2) <= i;
      }
    }
  }

  /**
   The positions in the list carry tag g, and if the generation is new its old tags are gone;
   all others are as before.
   */
  ghost predicate Noted(d: seq<Cell>, e: seq<Cell>, g: Cell, wiped: bool, done: seq<Pos>) {
    |d| == |e| && forall q: Pos {:trigger Tag(e, q)} :: q.word < |d| ==>
      Tag(e, q) == if q in done then g else if wiped then Kept(Tag(d, q), g) else Tag(d, q)
  }

  /** Positions in the list carry tag g, all others are as before. */
  ghost predicate Tagged(d: seq<Cell>, e: seq<Cell>, g: Cell, done: seq<Pos>) {
    |d| == |e| && forall q: Pos {:trigger Tag(e, q)} :: q.word < |d| ==> Tag(e, q) == if q in done then g else Tag(d, q)
  }

  lemma TaggedNext(d: seq<Cell>, e: seq<Cell>, f: seq<Cell>, g: Cell, p: seq<Pos>, n: nat)
    requires n < |p| && Tagged(d, e, g, p[..n]) && Written(e, f, p[n], g)
    ensures Tagged(d, f, g, p[..n + 1])
  {
    assert p[..n + 1] == p[..n] + [p[n]];
  }

  lemma TaggedKeeps(d: seq<Cell>, e: seq<Cell>, g: Cell, done: seq<Pos>, positions: seq<Pos>, age: nat)
    requires g in {1, 2, 3} && Tagged(d, e, g, done) && Remembers(d, g, positions, age)
    ensures Remembers(e, g, positions, age)
  {
  }

  lemma TaggedRemembers(d: seq<Cell>, e: seq<Cell>, g: Cell, done: seq<Pos>)
    requires g in {1, 2, 3} && Tagged(d, e, g, done) && forall n :: 0 <= n < |done| ==> done[n].word < |d|
    ensures Remembers(e, g, done, 0)
  {
  }
}
