/**
 The cuckoo cache's table: every element has eight locations, and an insertion moves
 elements between their own locations until one finds room or is dropped.
 */
module CuckooModel {
  type Locs = s: seq<nat> | |s| == 8 witness [0, 0, 0, 0, 0, 0, 0, 0]

  /** A table of the given size, the locations of its elements, and the element that fills it at first. */
  datatype Layout<!E(==)> = Layout(size: nat, locs: E -> Locs, filler: E)

  ghost predicate LocsOk<E(!new)>(c: Layout<E>) {
    forall e, k :: 0 <= k < 8 ==> c.locs(e)[k] < c.size
  }

  predicate At<E>(c: Layout<E>, e: E, i: nat) { i in c.locs(e) }

  /** Is x in one of its own locations? */
  predicate Found<E(==)>(c: Layout<E>, t: seq<E>, x: E) {
    exists i :: 0 <= i < |t| && t[i] == x && At(c, x, i)
  }

  /** Every un-collected slot holds an element at one of its own locations; so does every slot, but for the filler. */
  ghost predicate Own<E>(c: Layout<E>, t: seq<E>, collected: seq<bool>) {
    && |t| == |collected| == c.size
    && forall i :: 0 <= i < |t| ==> (t[i] == c.filler && collected[i]) || At(c, t[i], i)
  }

  /** No element but the filler sits in two slots. */
  ghost predicate Unique<E>(c: Layout<E>, t: seq<E>) {
    forall i, j :: 0 <= i < j < |t| && t[i] == t[j] ==> t[i] == c.filler
  }

  /** In the middle of inserting e0 into t0: the table t and the element e in hand. */
  ghost predicate Moving<E(!new)>(c: Layout<E>, t0: seq<E>, e0: E, t: seq<E>, e: E) {
    && |t| == |t0| == c.size
    && (forall x :: Found(c, t0, x) || x == e0 <==> Found(c, t, x) || x == e)
    && (e != c.filler ==> e !in t)
  }

  lemma UpdateFound<E(!new)>(c: Layout<E>, t: seq<E>, l: nat, e: E, x: E)
    requires l < |t| && At(c, e, l)
    ensures Found(c, t[l := e], e)
    ensures Found(c, t, x) ==> Found(c, t[l := e], x) || x == t[l]
    ensures Found(c, t[l := e], x) ==> Found(c, t, x) || x == e
  {
    var u := t[l := e];
    assert u[l] == e;
    if Found(c, t, x) {
      var i :| 0 <= i < |t| && t[i] == x && At(c, x, i);
      assert i != l ==> u[i] == x;
    }
    if Found(c, u, x) {
      var i :| 0 <= i < |u| && u[i] == x && At(c, x, i);
      assert i != l ==> t[i] == x;
    }
  }

  /** Swapping the element in hand with that of one of its locations loses nothing. */
  lemma SwapKeeps<E(!new)>(c: Layout<E>, t0: seq<E>, e0: E, t: seq<E>, e: E, l: nat)
    requires Moving(c, t0, e0, t, e) && Unique(c, t) && l < |t| && At(c, e, l) && At(c, t[l], l)
    ensures Moving(c, t0, e0, t[l := e], t[l]) && Unique(c, t[l := e])
  {
    var u, y := t[l := e], t[l];
    forall x
      ensures Found(c, u, x) || x == y <==> Found(c, t, x) || x == e
    {
      UpdateFound(c, t, l, e, x);
      assert Found(c, t, y) by { assert t[l] == y; }
    }
  }

  /** Writing the element in hand over a slot loses at most what was there. */
  lemma PlaceLoses<E(!new)>(c: Layout<E>, t0: seq<E>, e0: E, t: seq<E>, e: E, l: nat)
    requires Moving(c, t0, e0, t, e) && Unique(c, t) && l < |t| && At(c, e, l)
    ensures Lost(c, t0, e0, t[l := e], t[l]) && Unique(c, t[l := e])
  {
    var u, y := t[l := e], t[l];
    forall x
      ensures Found(c, t0, x) || x == e0 ==> Found(c, u, x) || x == y
    {
      UpdateFound(c, t, l, e, x);
    }
    forall x
      ensures Found(c, u, x) ==> Found(c, t0, x) || x == e0
    {
      UpdateFound(c, t, l, e, x);
    }
  }

  /** From t0 with e0 inserted to t at most the one element has stopped being found, and nothing else has appeared. */
  ghost predicate Lost<E(!new)>(c: Layout<E>, t0: seq<E>, e0: E, t: seq<E>, lost: E) {
    && (forall x :: Found(c, t0, x) || x == e0 ==> Found(c, t, x) || x == lost)
    && (forall x :: Found(c, t, x) ==> Found(c, t0, x) || x == e0)
  }
}
