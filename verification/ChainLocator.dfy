/** The heights of a block locator: single steps for the first ten, doubling ones after, down to zero. */
module ChainLocator {
  import opened Chain
  import opened Powers

  /** How far below the start entry i of a locator lies. */
  function Drop(i: nat): nat { if i <= 10 then i else 9 + Pow(2, i - 10) }

  function StepAt(i: nat): nat { if i <= 10 then 1 else Pow(2, i - 10) }

  function HeightAt(start: nat, i: nat): nat { if start > Drop(i) then start - Drop(i) else 0 }

  lemma DropNext(i: nat)
    ensures Drop(i + 1) == Drop(i) + StepAt(i) && StepAt(i) > 0
    ensures StepAt(i + 1) == if i + 1 > 10 then StepAt(i) * 2 else StepAt(i)
  {
    if i >= 10 {
      assert Pow(2, i + 1 - 10) == 2 * Pow(2, i - 10);
    }
  }

  /** r falls strictly through the heights of the entries from number count on, down to zero. */
  ghost predicate Falls(start: nat, count: nat, r: seq<nat>) {
    && r != [] && r[|r| - 1] == 0
    && (forall i :: 0 <= i < |r| ==> r[i] == HeightAt(start, count + i))
    && (forall i :: 0 <= i < |r| - 1 ==> r[i] > r[i + 1])
  }

  lemma FallsNext(start: nat, count: nat, h: nat, rest: seq<nat>)
    requires Falls(start, count + 1, rest) && h == HeightAt(start, count) > HeightAt(start, count + 1)
    ensures Falls(start, count, [h] + rest)
  {
    var r := [h] + rest;
    forall i | 0 <= i < |r|
      ensures r[i] == HeightAt(start, count + i)
    {
      if i > 0 { assert r[i] == rest[i - 1] == HeightAt(start, count + 1 + (i - 1)); }
    }
    forall i | 0 <= i < |r| - 1
      ensures r[i] > r[i + 1]
    {
      if i > 0 {
        assert r[i] == rest[i - 1] && r[i + 1] == rest[i];
      } else {
        assert rest[0] == HeightAt(start, count + 1 + 0);
      }
    }
  }

  lemma {:induction false} HeightsFrom(start: nat, count: nat)
    requires StepAt(count) > 0
    ensures Falls(start, count, LocatorHeights(HeightAt(start, count), StepAt(count), count))
    decreases HeightAt(start, count)
  {
    var h := HeightAt(start, count);
    DropNext(count);
    if h > 0 {
      DropNext(count + 1);
      HeightsFrom(start, count + 1);
      FallsNext(start, count, h, LocatorHeights(HeightAt(start, count + 1), StepAt(count + 1), count + 1));
    }
  }

  /**
   A locator begins at the start, ends at the first block, and has about log2 of the height
   entries more than eleven.
   */
  lemma LocatorIsShort(start: nat)
    ensures var r := LocatorHeights(start, 1, 0);
      Falls(start, 0, r) && r[0] == start && (|r| > 12 ==> Pow(2, |r| - 12) < start)
  {
    var r := LocatorHeights(start, 1, 0);
    HeightsFrom(start, 0);
    if |r| > 12 {
      assert r[|r| - 2] > r[|r| - 1] && r[|r| - 2] == HeightAt(start, |r| - 2);
    }
  }
}
