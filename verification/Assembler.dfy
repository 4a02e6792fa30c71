/**
 Choosing mempool transactions for a block: first by coin-age priority, then by score,
 with transactions postponed while a parent is missing.
 */
module Assembler {
  import opened Common

  type Id = nat

  datatype Tx = Tx(size: nat, sigops: nat, fee: int, shielded: bool, final: bool)

  /** The pool: its transactions, and for each its parents and its children in the pool. */
  datatype Pool = Pool(txs: map<Id, Tx>, parents: map<Id, set<Id>>, children: map<Id, set<Id>>) {
    ghost predicate Valid() {
      && parents.Keys == children.Keys == txs.Keys
      && (forall x :: x in txs ==> parents[x] <= txs.Keys && children[x] <= txs.Keys)
      && (forall x, y :: x in txs && y in txs ==> (y in children[x] <==> x in parents[y]))
    }
  }

  const MAX_BLOCK_SIZE: nat := 2000000
  const MAX_SIGOPS: nat := MAX_BLOCK_SIZE / 50
  const MAX_SHIELDED_SIZE: nat := 750000

  // ---- totals over a list of transactions

  function Sum(f: Tx -> int, txs: map<Id, Tx>, list: seq<Id>, n: nat): int
    requires n <= |list| && forall i :: 0 <= i < n ==> list[i] in txs
  {
    if n == 0 then 0 else Sum(f, txs, list, n - 1) + f(txs[list[n - 1]])
  }

  lemma {:induction false} SumPrefix(f: Tx -> int, txs: map<Id, Tx>, a: seq<Id>, b: seq<Id>, n: nat)
    requires n <= |a| && n <= |b| && (forall i :: 0 <= i < n ==> a[i] == b[i] && a[i] in txs)
    ensures Sum(f, txs, a, n) == Sum(f, txs, b, n)
  {
    if n > 0 {
      SumPrefix(f, txs, a, b, n - 1);
    }
  }

  function Total(f: Tx -> int, txs: map<Id, Tx>, list: seq<Id>): int
    requires forall i :: 0 <= i < |list| ==> list[i] in txs
  {
    Sum(f, txs, list, |list|)
  }

  lemma TotalNext(f: Tx -> int, txs: map<Id, Tx>, list: seq<Id>, x: Id)
    requires x in txs && forall i :: 0 <= i < |list| ==> list[i] in txs
    ensures Total(f, txs, list + [x]) == Total(f, txs, list) + f(txs[x])
  {
    SumPrefix(f, txs, list, list + [x], |list|);
  }

  function Elements(list: seq<Id>): set<Id> { set x | x in list }

  lemma ElementsNext(list: seq<Id>, x: Id)
    ensures Elements(list + [x]) == Elements(list) + {x}
  {
  }

  lemma FirstElements(list: seq<Id>)
    ensures |list| > 0 ==> list[0] in Elements(list)
    ensures |list| > 1 ==> list[1] in Elements(list)
  {
  }

  function Size(t: Tx): int { t.size }
  function SigOps(t: Tx): int { t.sigops }
  function Fee(t: Tx): int { t.fee }
  function ShieldedSize(t: Tx): int { if t.shielded then t.size else 0 }

  /** Distinct pool transactions, every parent before its child. */
  ghost predicate Ordered(pool: Pool, vtx: seq<Id>) {
    && (forall i :: 0 <= i < |vtx| ==> vtx[i] in pool.txs)
    && (forall i, j :: 0 <= i < j < |vtx| ==> vtx[i] != vtx[j])
    && (forall i, p :: 0 <= i < |vtx| && vtx[i] in pool.parents && p in pool.parents[vtx[i]] ==> p in vtx[..i])
  }

  lemma OrderedNext(pool: Pool, vtx: seq<Id>, x: Id)
    requires Ordered(pool, vtx) && x in pool.txs && x !in vtx && x in pool.parents
    requires forall p :: p in pool.parents[x] ==> p in vtx
    ensures Ordered(pool, vtx + [x])
  {
    var w := vtx + [x];
    forall i, p | 0 <= i < |w| && w[i] in pool.parents && p in pool.parents[w[i]]
      ensures p in w[..i]
    {
      if i < |vtx| {
        assert w[..i] == vtx[..i];
      } else {
        assert w[..i] == vtx;
      }
    }
  }

  /**
   Every transaction of the list is in the block, waits for a parent, is ready, or was refused
   with its parents in; and these all are on the list.
   */
  ghost predicate Accounted(pool: Pool, inBlock: set<Id>, list: set<Id>, wait: set<Id>, ready: set<Id>,
                            refused: set<Id>) {
    && pool.Valid() && list <= pool.txs.Keys && wait <= list && ready <= list && refused <= list
    && (forall y :: y in wait ==> !(pool.parents[y] <= inBlock))
    && (forall y :: y in refused ==> pool.parents[y] <= inBlock)
    && list <= inBlock + wait + ready + refused
  }

  /** Adding x readies its children; the others that wait do so still. */
  lemma AddedAccounted(pool: Pool, inBlock: set<Id>, x: Id, list: set<Id>, wait: set<Id>, ready: set<Id>,
                       refused: set<Id>)
    requires Accounted(pool, inBlock, list, wait, ready + {x}, refused)
    ensures Accounted(pool, inBlock + {x}, list, wait - pool.children[x], ready + wait * pool.children[x], refused)
  {
    forall y | y in wait - pool.children[x]
      ensures !(pool.parents[y] <= inBlock + {x})
    {
      assert x !in pool.parents[y];
    }
  }

  lemma RefusedAccounted(pool: Pool, inBlock: set<Id>, x: Id, list: set<Id>, wait: set<Id>, ready: set<Id>,
                         refused: set<Id>)
    requires Accounted(pool, inBlock, list, wait, ready + {x}, refused) && pool.parents[x] <= inBlock
    ensures Accounted(pool, inBlock, list, wait, ready, refused + {x})
  {
  }

  lemma WaitingAccounted(pool: Pool, inBlock: set<Id>, x: Id, list: set<Id>, wait: set<Id>, ready: set<Id>,
                         refused: set<Id>)
    requires Accounted(pool, inBlock, list, wait, ready + {x}, refused) && !(pool.parents[x] <= inBlock)
    ensures Accounted(pool, inBlock, list, wait + {x}, ready, refused)
  {
  }

  /** How full a block is, and its limits. */
  datatype Fill = Fill(size: nat, sigops: nat, shieldedSize: nat, maxSize: nat, maintenance: bool)

  predicate Fits(t: Tx, b: Fill) {
    && !(t.shielded && b.maintenance)
    && b.size + t.size < b.maxSize
    && !(t.shielded && b.shieldedSize + t.size > MAX_SHIELDED_SIZE)
    && b.sigops + t.sigops < MAX_SIGOPS
    && t.final
  }

  predicate Fuller(b: Fill, c: Fill) {
    b.size <= c.size && b.sigops <= c.sigops && b.shieldedSize <= c.shieldedSize && b.maxSize == c.maxSize &&
      b.maintenance == c.maintenance
  }

  ghost predicate NoneFits(pool: Pool, refused: set<Id>, b: Fill) {
    forall y :: y in refused ==> y in pool.txs && !Fits(pool.txs[y], b)
  }

  /** What did not fit never will: blocks only grow. */
  lemma StillNoneFits(pool: Pool, refused: set<Id>, b: Fill, c: Fill)
    requires NoneFits(pool, refused, b) && Fuller(b, c)
    ensures NoneFits(pool, refused, c)
  {
  }

  /** Why a transaction that misses no parent stays outside a block: its kind, or one of three limits. */
  predicate KeptOut(t: Tx, b: Fill) {
    || !t.final
    || (t.shielded && b.maintenance)
    || b.size + t.size >= b.maxSize
    || (t.shielded && b.shieldedSize + t.size > 750000)
    || b.sigops + t.sigops >= 40000
  }

  /** Nothing more can be added: what is outside the block misses a parent or is kept out. */
  ghost predicate Full(pool: Pool, inBlock: set<Id>, b: Fill) {
    pool.Valid() && forall y :: y in pool.txs && y !in inBlock ==>
      !(pool.parents[y] <= inBlock) || KeptOut(pool.txs[y], b)
  }

  lemma AllAccounted(pool: Pool, inBlock: set<Id>, wait: set<Id>, refused: set<Id>, b: Fill)
    requires Accounted(pool, inBlock, pool.txs.Keys, wait, {}, refused) && NoneFits(pool, refused, b)
    ensures Full(pool, inBlock, b)
  {
    forall y | y in pool.txs && y !in inBlock
      ensures y in wait || y in refused
    {
      assert y in inBlock + wait + {} + refused;
    }
  }

  // ---- scores

  ghost predicate Descending(score: Id -> int, order: seq<Id>) {
    forall i, j :: 0 <= i < j < |order| ==> score(order[i]) >= score(order[j])
  }

  /** top chooses one with the best score. */
  ghost predicate Best(score: Id -> int, top: set<Id> -> Id) {
    forall s :: s != {} ==> IsBest(score, top(s), s)
  }

  ghost predicate IsBest(score: Id -> int, x: Id, s: set<Id>) { x in s && forall y :: y in s ==> score(y) <= score(x) }

  /** One that was looked at before has at least the score of all that were not. */
  lemma ReadyGoesFirst(score: Id -> int, order: seq<Id>, mi: nat, x: Id)
    requires mi <= |order| && Descending(score, order) && x in Elements(order[..mi])
    ensures forall y :: y in Elements(order[mi..]) ==> score(y) <= score(x)
  {
    var i :| 0 <= i < mi && order[..mi][i] == x;
    forall y | y in order[mi..]
      ensures score(y) <= score(x)
    {
      var j :| 0 <= j < |order| - mi && order[mi..][j] == y;
      assert order[mi + j] == y && order[i] == x;
    }
  }

  lemma NextIsBest(score: Id -> int, order: seq<Id>, mi: nat)
    requires mi < |order| && Descending(score, order)
    ensures IsBest(score, order[mi], {} + Elements(order[mi..]))
  {
    forall y | y in order[mi..]
      ensures score(y) <= score(order[mi])
    {
      var j :| 0 <= j < |order| - mi && order[mi..][j] == y;
      assert order[mi + j] == y;
    }
    assert order[mi..][0] == order[mi];
  }

  lemma LookedAtGrows(order: seq<Id>, mi: nat, newMi: nat)
    requires mi <= newMi <= |order|
    ensures Elements(order[..mi]) <= Elements(order[..newMi])
  {
    forall y | y in order[..mi]
      ensures y in order[..newMi]
    {
      var i :| 0 <= i < mi && order[..mi][i] == y;
      assert order[..newMi][i] == y;
    }
  }

  /**
   What is left outside although it has a better score than one that was added misses a parent, is kept
   out, or was released too late to be tried.
   */
  ghost predicate PassedOver(pool: Pool, start: set<Id>, inBlock: set<Id>, ready: set<Id>, b: Fill, score: Id -> int) {
    pool.Valid() && forall x, y :: x in inBlock - start && y in pool.txs && y !in inBlock && score(y) > score(x) ==>
      y in ready || !(pool.parents[y] <= inBlock) || KeptOut(pool.txs[y], b)
  }

  lemma BestFirst(pool: Pool, start: set<Id>, inBlock: set<Id>, order: seq<Id>, mi: nat, wait: set<Id>, ready: set<Id>,
                  refused: set<Id>, b: Fill, score: Id -> int)
    requires mi <= |order| && Elements(order) == pool.txs.Keys && Descending(score, order)
    requires inBlock - start <= Elements(order[..mi]) && NoneFits(pool, refused, b)
    requires Accounted(pool, inBlock, Elements(order[..mi]), wait, ready, refused)
    ensures PassedOver(pool, start, inBlock, ready, b, score)
  {
    forall x, y | x in inBlock - start && y in pool.txs && y !in inBlock && score(y) > score(x)
      ensures y in ready || !(pool.parents[y] <= inBlock) || KeptOut(pool.txs[y], b)
    {
      BetterWasSeen(order, mi, x, y, score);
      AccountedFor(pool, inBlock, Elements(order[..mi]), wait, ready, refused, y);
    }
  }

  /** One with a better score than one that was looked at was looked at, too. */
  lemma BetterWasSeen(order: seq<Id>, mi: nat, x: Id, y: Id, score: Id -> int)
    requires mi <= |order| && Descending(score, order) && x in Elements(order[..mi])
    requires y in Elements(order) && score(y) > score(x)
    ensures y in Elements(order[..mi])
  {
    ReadyGoesFirst(score, order, mi, x);
    assert order == order[..mi] + order[mi..];
  }

  lemma AccountedFor(pool: Pool, inBlock: set<Id>, list: set<Id>, wait: set<Id>, ready: set<Id>, refused: set<Id>,
                     y: Id)
    requires Accounted(pool, inBlock, list, wait, ready, refused) && y in list && y !in inBlock
    ensures y in ready || !(pool.parents[y] <= inBlock) || y in refused
  {
    assert y in inBlock + wait + ready + refused;
  }

  class Assembler {
    const pool: Pool
    const nBlockMaxSize: nat
    const nBlockMinSize: nat
    const nBlockPrioritySize: nat
    const saplingMaintenance: bool
    /** What the block held before any pool transaction. */
    ghost const startSize: nat
    ghost const startShielded: nat

    var vtx: seq<Id>
    var inBlock: set<Id>
    var nBlockSize: nat
    var nBlockSigOps: nat
    var nFees: int
    var nBlockTx: nat
    var nSizeShielded: nat
    var lastFewTxs: nat
    var blockFinished: bool

    /** The block's list is in order, its set and counters agree with it, and it is within the limits. */
    ghost predicate Valid()
      reads this
    {
      && pool.Valid() && nBlockMaxSize >= 1000 && Ordered(pool, vtx)
      && inBlock == Elements(vtx)
      && nBlockTx == |vtx|
      && nBlockSize == startSize + Total(Size, pool.txs, vtx)
      && nBlockSigOps == 100 + Total(SigOps, pool.txs, vtx)
      && nFees == Total(Fee, pool.txs, vtx)
      && nSizeShielded == startShielded + Total(ShieldedSize, pool.txs, vtx)
      && (vtx != [] ==> nBlockSize < nBlockMaxSize && nBlockSigOps < 40000)
      && (nSizeShielded == startShielded || nSizeShielded <= 750000)
      && (forall i :: 0 <= i < |vtx| ==> Allowed(pool.txs[vtx[i]]))
      && (lastFewTxs > 0 ==> nBlockSize > nBlockMaxSize - 1000)
      && (blockFinished ==> NearlyFull())
    }

    /** Only transactions whose lock time is reached may be in the block, and none that is shielded in maintenance. */
    predicate Allowed(t: Tx) { t.final && !(t.shielded && saplingMaintenance) }

    /** There is hardly room left for bytes or signature operations, or over fifty tries near the end found none. */
    predicate NearlyFull()
      reads this
    {
      nBlockSize > nBlockMaxSize - 100 || lastFewTxs > 50 || nBlockSigOps > 39998
    }

    constructor (p: Pool, maxSize: nat, minSize: nat, prioritySize: nat, maintenance: bool, size: nat, shielded: nat)
      requires p.Valid()
      ensures Valid() && pool == p && vtx == [] && inBlock == {} && !blockFinished && saplingMaintenance == maintenance
      ensures nBlockMaxSize == Max(1000, Min(MAX_BLOCK_SIZE - 1000, maxSize))
      ensures nBlockMinSize == Min(nBlockMaxSize, minSize) && nBlockPrioritySize == Min(nBlockMaxSize, prioritySize)
      ensures nBlockSize == startSize == size && nSizeShielded == startShielded == shielded && lastFewTxs == 0
    {
      var limit := Max(1000, Min(MAX_BLOCK_SIZE - 1000, maxSize));
      pool, nBlockMaxSize, nBlockMinSize := p, limit, Min(limit, minSize);
      nBlockPrioritySize := Min(limit, prioritySize);
      saplingMaintenance, startSize, startShielded := maintenance, size, shielded;
      vtx, inBlock, nBlockSize, nBlockSigOps, nFees, nBlockTx := [], {}, size, 100, 0, 0;
      nSizeShielded, lastFewTxs, blockFinished := shielded, 0, false;
    }

    /** Is a parent of x missing from the block? */
    ghost predicate Dependent(x: Id)
      requires x in pool.parents
      reads this
    {
      !(pool.parents[x] <= inBlock)
    }

    method IsStillDependent(x: Id) returns (r: bool)
      requires x in pool.parents
      ensures r <==> Dependent(x)
    {
      var todo := pool.parents[x];
      while todo != {}
        invariant todo <= pool.parents[x] && pool.parents[x] - todo <= inBlock
        decreases |todo|
      {
        assert (forall p :: p !in todo) ==> todo == {};
        var p :| p in todo;
        if p !in inBlock {
          return true;
        }
        todo := todo - {p};
      }
      r := false;
    }

    /** How full the block is. */
    function Room(): Fill
      reads this
    {
      Fill(nBlockSize, nBlockSigOps, nSizeShielded, nBlockMaxSize, saplingMaintenance)
    }

    /** May x be added to the block as it stands? */
    predicate Admissible(x: Id)
      requires x in pool.txs
      reads this
    {
      Fits(pool.txs[x], Room())
    }

    lemma EmptyRoom()
      requires Valid() && inBlock == {}
      ensures Room() == Fill(startSize, 100, startShielded, nBlockMaxSize, saplingMaintenance)
    {
      FirstElements(vtx);
    }

    lemma RoomWithOne(x: Id)
      requires Valid() && inBlock == {x}
      ensures x in pool.txs && nBlockSize == startSize + pool.txs[x].size
    {
      assert x in Elements(vtx);
      FirstElements(vtx);
      assert vtx == [] + [x];
      TotalNext(Size, pool.txs, [], x);
    }

    /** Does a refusal of x for want of room end the block? */
    predicate EndsBlock(x: Id)
      requires x in pool.txs
      reads this
    {
      var t := pool.txs[x];
      && !(t.shielded && saplingMaintenance)
      && if nBlockSize + t.size >= nBlockMaxSize then nBlockSize > nBlockMaxSize - 100 || lastFewTxs > 50
         else !(t.shielded && nSizeShielded + t.size > MAX_SHIELDED_SIZE)
              && nBlockSigOps + t.sigops >= MAX_SIGOPS && nBlockSigOps > MAX_SIGOPS - 2
    }

    /** Does a refusal of x count towards the last tries of a nearly full block? */
    predicate CountsAsTry(x: Id)
      requires x in pool.txs
      reads this
    {
      var t := pool.txs[x];
      && !(t.shielded && saplingMaintenance) && nBlockSize + t.size >= nBlockMaxSize
      && nBlockMaxSize - 1000 < nBlockSize && !EndsBlock(x)
    }

    method TestForBlock(x: Id) returns (ok: bool)
      requires Valid() && x in pool.txs
      modifies this`lastFewTxs, this`blockFinished
      ensures Valid() && (ok <==> old(Admissible(x))) && (ok <==> !KeptOut(pool.txs[x], Room()))
      ensures blockFinished == (old(blockFinished) || old(EndsBlock(x)))
      ensures lastFewTxs == old(lastFewTxs) + if old(CountsAsTry(x)) then 1 else 0
    {
      var t := pool.txs[x];
      if t.shielded && saplingMaintenance {
        return false;
      }
      if nBlockSize + t.size >= nBlockMaxSize {
        if nBlockSize > nBlockMaxSize - 100 || lastFewTxs > 50 {
          blockFinished := true;
          return false;
        }
        if nBlockSize > nBlockMaxSize - 1000 {
          lastFewTxs := lastFewTxs + 1;
        }
        return false;
      }
      if t.shielded && nSizeShielded + t.size > MAX_SHIELDED_SIZE {
        return false;
      }
      if nBlockSigOps + t.sigops >= MAX_SIGOPS {
        if nBlockSigOps > MAX_SIGOPS - 2 {
          blockFinished := true;
          return false;
        }
        return false;
      }
      return t.final;
    }

    method AddToBlock(x: Id)
      requires Valid() && x in pool.txs && x !in inBlock && !Dependent(x) && Admissible(x)
      modifies this
      ensures Valid() && vtx == old(vtx) + [x] && inBlock == old(inBlock) + {x}
      ensures blockFinished == old(blockFinished) && lastFewTxs == old(lastFewTxs)
      ensures Fuller(old(Room()), Room())
    {
      OrderedNext(pool, vtx, x);
      ElementsNext(vtx, x);
      TotalNext(Size, pool.txs, vtx, x);
      TotalNext(SigOps, pool.txs, vtx, x);
      TotalNext(Fee, pool.txs, vtx, x);
      TotalNext(ShieldedSize, pool.txs, vtx, x);
      var t := pool.txs[x];
      vtx := vtx + [x];
      nBlockSize := nBlockSize + t.size;
      nBlockTx := nBlockTx + 1;
      nBlockSigOps := nBlockSigOps + t.sigops;
      nFees := nFees + t.fee;
      nSizeShielded := nSizeShielded + if t.shielded then t.size else 0;
      inBlock := inBlock + {x};
    }

    /** Takes the children of x that were waiting out of the wait set, to be tried again. */
    method Release(x: Id, wait: set<Id>, ready: set<Id>) returns (newWait: set<Id>, newReady: set<Id>)
      requires x in pool.children
      ensures newWait == wait - pool.children[x] && newReady == ready + wait * pool.children[x]
    {
      newWait, newReady := wait, ready;
      var todo := pool.children[x];
      while todo != {}
        invariant todo <= pool.children[x] && newWait == wait - (pool.children[x] - todo)
        invariant newReady == ready + wait * (pool.children[x] - todo)
        decreases |todo|
      {
        assert (forall c :: c !in todo) ==> todo == {};
        var c :| c in todo;
        if c in newWait {
          newReady, newWait := newReady + {c}, newWait - {c};
        }
        todo := todo - {c};
      }
    }

    /** Number of pool transactions outside the block. */
    ghost function Outside(): nat
      reads this
    {
      |pool.txs.Keys - inBlock|
    }

    lemma OutsideShrinks(before: set<Id>, x: Id)
      requires x in pool.txs && x !in before
      ensures |pool.txs.Keys - (before + {x})| < |pool.txs.Keys - before|
    {
      var a, b := pool.txs.Keys - before, pool.txs.Keys - (before + {x});
      assert a == b + {x};
    }

    /** Adds x, none of whose parents is missing, if it may be added. */
    method Try(x: Id) returns (added: bool)
      requires Valid() && x in pool.txs && x !in inBlock && !Dependent(x)
      modifies this
      ensures Fuller(old(Room()), Room()) && (!added ==> Room() == old(Room()))
      ensures Valid() && (added <==> old(Admissible(x))) && blockFinished == (old(blockFinished) || old(EndsBlock(x)))
      ensures added ==> vtx == old(vtx) + [x] && inBlock == old(inBlock) + {x} && Outside() < old(Outside())
      ensures !added ==> vtx == old(vtx) && inBlock == old(inBlock)
    {
      added := TestForBlock(x);
      if added {
        OutsideShrinks(inBlock, x);
        AddToBlock(x);
      }
    }

    /** One turn of the selection by score: skip, postpone, stop, or try. */
    method Consider(x: Id, cheap: bool, ghost list: set<Id>, wait: set<Id>, ready: set<Id>, ghost refused: set<Id>)
      returns (stop: bool, newWait: set<Id>, newReady: set<Id>, ghost newRefused: set<Id>)
      requires Valid() && Accounted(pool, inBlock, list, wait, ready + {x}, refused) && NoneFits(pool, refused, Room())
      modifies this
      ensures Valid() && Accounted(pool, inBlock, list, newWait, newReady, newRefused)
      ensures NoneFits(pool, newRefused, Room())
      ensures vtx == old(vtx) || vtx == old(vtx) + [x]
      ensures !stop ==> (inBlock == old(inBlock) && newReady == ready) || Outside() < old(Outside())
      ensures stop <==> old(x !in inBlock && !Dependent(x)) && cheap && old(nBlockSize) >= nBlockMinSize
      ensures stop ==> nBlockSize == old(nBlockSize)
      ensures inBlock == old(inBlock) || inBlock == old(inBlock) + {x}
    {
      stop, newWait, newReady, newRefused := false, wait, ready, refused;
      if x in inBlock {
        return;
      }
      var d := IsStillDependent(x);
      if d {
        WaitingAccounted(pool, inBlock, x, list, wait, ready, refused);
        newWait := wait + {x};
        return;
      }
      if cheap && nBlockSize >= nBlockMinSize {
        return true, wait, ready + {x}, refused;
      }
      AddedAccounted(pool, inBlock, x, list, wait, ready, refused);
      RefusedAccounted(pool, inBlock, x, list, wait, ready, refused);
      ghost var room := Room();
      var added := Try(x);
      StillNoneFits(pool, refused, room, Room());
      if added {
        newWait, newReady := Release(x, wait, ready);
      } else {
        newRefused := refused + {x};
      }
    }

    /** The transaction to look at next: one that is ready again, or the next in order. */
    method PickNext(order: seq<Id>, mi: nat, ready: set<Id>, top: set<Id> -> Id, ghost wait: set<Id>,
                    ghost refused: set<Id>, ghost score: Id -> int)
      returns (x: Id, newMi: nat, newReady: set<Id>)
      requires mi <= |order| && (mi < |order| || ready != {}) && Descending(score, order) && Best(score, top)
      requires Elements(order) == pool.txs.Keys && Accounted(pool, inBlock, Elements(order[..mi]), wait, ready, refused)
      ensures newMi <= |order| && |order| - newMi + |newReady| < |order| - mi + |ready|
      ensures Accounted(pool, inBlock, Elements(order[..newMi]), wait, newReady + {x}, refused)
      ensures newMi >= mi && IsBest(score, x, ready + Elements(order[mi..]))
    {
      if ready == {} {
        ScanNext(pool, inBlock, order, mi, wait, refused);
        x, newMi, newReady := order[mi], mi + 1, ready;
        NextIsBest(score, order, mi);
      } else {
        ReadyGoesFirst(score, order, mi, top(ready));
        x, newMi := top(ready), mi;
        newReady := ready - {x};
        assert newReady + {x} == ready;
      }
    }

    /** A selection by score under way: the first mi in order have been looked at, and no others added since start. */
    ghost predicate Scanning(order: seq<Id>, mi: nat, wait: set<Id>, ready: set<Id>, refused: set<Id>, start: set<Id>)
      reads this
    {
      && mi <= |order| && inBlock - start <= Elements(order[..mi])
      && Valid() && mi <= |order| && Elements(order) == pool.txs.Keys
      && Accounted(pool, inBlock, Elements(order[..mi]), wait, ready, refused) && NoneFits(pool, refused, Room())
    }

    /** Picks the next transaction and looks at it. */
    method ScoreStep(order: seq<Id>, mi: nat, wait: set<Id>, ready: set<Id>, ghost refused: set<Id>, top: set<Id> -> Id,
                     cheap: Id -> bool, ghost score: Id -> int, ghost start: set<Id>)
      returns (stop: bool, newMi: nat, newWait: set<Id>, newReady: set<Id>, ghost newRefused: set<Id>)
      requires Scanning(order, mi, wait, ready, refused, start) && (mi < |order| || ready != {})
      requires Descending(score, order) && Best(score, top)
      modifies this
      ensures Scanning(order, newMi, newWait, newReady, newRefused, start) && Extends(old(vtx), vtx)
      ensures !stop && Outside() >= old(Outside()) ==>
        Outside() == old(Outside()) && |order| - newMi + |newReady| < |order| - mi + |ready|
      ensures stop ==> nBlockSize >= nBlockMinSize
    {
      var x;
      x, newMi, newReady := PickNext(order, mi, ready, top, wait, refused, score);
      LookedAtGrows(order, mi, newMi);
      stop, newWait, newReady, newRefused := Consider(x, cheap(x), Elements(order[..newMi]), wait, newReady, refused);
    }

    /**
     Selection by score: the next transaction in order, unless one is ready again. `top` is
     the queue's choice, `cheap` says which pay too little once the block is large enough.
     Those in ready were released, but the selection ended before they were tried again.
     */
    method AddScoreTxs(order: seq<Id>, top: set<Id> -> Id, cheap: Id -> bool, ghost score: Id -> int)
      returns (exhausted: bool, wait: set<Id>, ready: set<Id>)
      requires Valid() && Elements(order) == pool.txs.Keys && Descending(score, order) && Best(score, top)
      modifies this
      ensures PassedOver(pool, old(inBlock), inBlock, ready, Room(), score) && (exhausted ==> ready == {})
      ensures Valid() && Extends(old(vtx), vtx)
      ensures exhausted ==> Full(pool, inBlock, Room())
      ensures forall y :: y in wait ==> y in pool.txs && Dependent(y)
      ensures !exhausted ==> blockFinished || nBlockSize >= nBlockMinSize
    {
      wait, ready := {}, {};
      ghost var refused: set<Id> := {};
      var mi: nat := 0;
      ghost var start, started := vtx, inBlock;
      while !blockFinished && (mi < |order| || ready != {})
        invariant Scanning(order, mi, wait, ready, refused, started)
        invariant Extends(start, vtx)
        decreases Outside(), |order| - mi + |ready|
      {
        var stop;
        stop, mi, wait, ready, refused := ScoreStep(order, mi, wait, ready, refused, top, cheap, score, started);
        if stop {
          BestFirst(pool, started, inBlock, order, mi, wait, ready, refused, Room(), score);
          return false, wait, ready;
        }
      }
      BestFirst(pool, started, inBlock, order, mi, wait, ready, refused, Room(), score);
      exhausted := !blockFinished;
      if exhausted {
        ScanDone(pool, inBlock, order, wait, refused, Room());
      }
    }

    /** A selection by priority under way: what is on the heap, waits or was refused. */
    ghost predicate Choosing(wait: set<Id>, heap: set<Id>, refused: set<Id>)
      reads this
    {
      Valid() && Apart(pool, inBlock, wait, heap, refused) && NoneFits(pool, refused, Room())
    }

    /** One turn of the selection by priority: postpone or try. */
    method ConsiderPriority(x: Id, wait: set<Id>, heap: set<Id>, ghost refused: set<Id>, free: bool)
      returns (stop: bool, newWait: set<Id>, newHeap: set<Id>, ghost newRefused: set<Id>)
      requires x in heap && Choosing(wait, heap, refused)
      modifies this
      ensures Valid() && (!stop ==> Choosing(newWait, newHeap, newRefused))
      ensures NoneFits(pool, newRefused, Room()) && pool.txs.Keys <= inBlock + newWait + newHeap + newRefused
      ensures Turn(inBlock, newWait, newHeap, stop)
        == PriorityTurn(pool, old(inBlock), wait, heap, x, old(Admissible(x)),
                        nBlockSize >= nBlockPrioritySize || !free)
      ensures !stop ==> (inBlock == old(inBlock) && newHeap == heap - {x}) || Outside() < old(Outside())
    {
      stop, newWait, newHeap, newRefused := false, wait, heap - {x}, refused;
      ApartSteps(pool, inBlock, x, wait, heap, refused);
      var d := IsStillDependent(x);
      if d {
        newWait := wait + {x};
        return;
      }
      ghost var room := Room();
      var added := Try(x);
      StillNoneFits(pool, refused, room, Room());
      if !added {
        newRefused := refused + {x};
      } else if nBlockSize >= nBlockPrioritySize || !free {
        stop := true;
      } else {
        newWait, newHeap := Release(x, wait, heap - {x});
      }
    }

    /** Looks at x; at an early stop says which of the waiting are forgotten. */
    method PriorityStep(x: Id, wait: set<Id>, heap: set<Id>, ghost refused: set<Id>, free: bool)
      returns (stop: bool, newWait: set<Id>, newHeap: set<Id>, ghost newRefused: set<Id>)
      requires x in heap && Choosing(wait, heap, refused)
      modifies this
      ensures Valid() && (!stop ==> Choosing(newWait, newHeap, newRefused))
      ensures NoneFits(pool, newRefused, Room()) && pool.txs.Keys <= inBlock + newWait + newHeap + newRefused
      ensures !stop && Outside() >= old(Outside()) ==> Outside() == old(Outside()) && |newHeap| < |heap|
      ensures stop ==> ForgottenAfter(pool, inBlock, newWait, x) && (nBlockSize >= nBlockPrioritySize || !free)
      ensures Turn(inBlock, newWait, newHeap, stop)
        == PriorityTurn(pool, old(inBlock), wait, heap, x, old(Admissible(x)),
                        nBlockSize >= nBlockPrioritySize || !free)
    {
      EarlyStopForgets(pool, inBlock, x, wait, heap, refused);
      stop, newWait, newHeap, newRefused := ConsiderPriority(x, wait, heap, refused, free);
    }

    /**
     Selection by priority, into an empty block. `top` is the heap's choice, `free` says
     whose priority allows going on. After an early stop, at the transaction in last, its
     children are not released: those it was the last missing parent of stay in wait.
     */
    method AddPriorityTxs(top: set<Id> -> Id, free: Id -> bool, ghost priority: Id -> int)
      returns (exhausted: bool, wait: set<Id>, last: Option<Id>)
      requires Valid() && inBlock == {} && Best(priority, top)
      modifies this
      ensures Valid() && Outranked(pool, inBlock, Room(), priority)
      ensures exhausted ==> Full(pool, inBlock, Room()) && last.None?
      ensures last.None? ==>
        AllDependent(pool, inBlock, wait) && (exhausted || blockFinished || nBlockPrioritySize == 0)
      ensures last.Some? ==>
        && ForgottenAfter(pool, inBlock, wait, last.value)
        && (nBlockSize >= nBlockPrioritySize || !free(last.value))
    {
      exhausted, wait, last := false, {}, None;
      if nBlockPrioritySize == 0 {
        return;
      }
      var heap := pool.txs.Keys;
      ghost var refused: set<Id> := {};
      while heap != {} && !blockFinished
        invariant Choosing(wait, heap, refused) && Ranked(pool, inBlock, heap, priority)
        decreases Outside(), |heap|
      {
        var x, stop := top(heap), false;
        RankedTurn(pool, inBlock, wait, heap, x, priority);
        stop, wait, heap, refused := PriorityStep(x, wait, heap, refused, free(x));
        if stop {
          last := Some(x);
          OutrankedAfter(pool, inBlock, wait, heap, refused, x, Room(), priority);
          return;
        }
      }
      OutrankedAtEnd(pool, inBlock, wait, heap, refused, Room(), priority);
      ApartWaits(pool, inBlock, wait, heap, refused);
      exhausted := !blockFinished;
      if exhausted {
        AllAccounted(pool, inBlock, wait, refused, Room());
      }
    }

    /** By priority first, then by score; every choice function is the caller's. */
    method AddTransactions(topPriority: set<Id> -> Id, free: Id -> bool, order: seq<Id>, topScore: set<Id> -> Id,
                           cheap: Id -> bool, ghost priority: Id -> int, ghost score: Id -> int)
        returns (exhausted: bool)
      requires Valid() && inBlock == {} && Elements(order) == pool.txs.Keys && Descending(score, order)
      requires Best(score, topScore) && Best(priority, topPriority)
      modifies this
      ensures Valid()
      ensures exhausted ==> Full(pool, inBlock, Room())
      ensures !exhausted ==> blockFinished || nBlockSize >= nBlockMinSize
    {
      var wait, last, ready;
      exhausted, wait, last := AddPriorityTxs(topPriority, free, priority);
      exhausted, wait, ready := AddScoreTxs(order, topScore, cheap, score);
    }
  }

  /** All of the pool is accounted for, and what is on the heap or waits is not in the block, nor both. */
  ghost predicate Apart(pool: Pool, inBlock: set<Id>, wait: set<Id>, heap: set<Id>, refused: set<Id>) {
    && Accounted(pool, inBlock, pool.txs.Keys, wait, heap, refused)
    && heap !! inBlock && wait !! inBlock && heap !! wait
  }

  /** Where one turn of the selection by priority leads. */
  datatype Turn = Turn(inBlock: set<Id>, wait: set<Id>, heap: set<Id>, stop: bool)

  /** x waits, is refused, ends the selection, or is added and readies its children. */
  function PriorityTurn(pool: Pool, inBlock: set<Id>, wait: set<Id>, heap: set<Id>, x: Id, fits: bool, ends: bool): Turn
    requires x in pool.parents && x in pool.children
  {
    if !(pool.parents[x] <= inBlock) then Turn(inBlock, wait + {x}, heap - {x}, false)
    else if !fits then Turn(inBlock, wait, heap - {x}, false)
    else if ends then Turn(inBlock + {x}, wait, heap - {x}, true)
    else Turn(inBlock + {x}, wait - pool.children[x], heap - {x} + wait * pool.children[x], false)
  }

  /** What is on the heap has a parent in the block, or at most the priority of everything in it. */
  ghost predicate Ranked(pool: Pool, inBlock: set<Id>, heap: set<Id>, priority: Id -> int) {
    forall x, y :: x in inBlock && y in heap && priority(y) > priority(x) ==> HasParentIn(pool, y, inBlock)
  }

  ghost predicate HasParentIn(pool: Pool, y: Id, inBlock: set<Id>) {
    y in pool.parents && exists p :: p in pool.parents[y] && p in inBlock
  }

  lemma RankedTurn(pool: Pool, inBlock: set<Id>, wait: set<Id>, heap: set<Id>, x: Id, priority: Id -> int)
    requires pool.Valid() && wait <= pool.txs.Keys && x in pool.txs
    requires Ranked(pool, inBlock, heap, priority) && IsBest(priority, x, heap)
    ensures forall fits, ends :: var t := PriorityTurn(pool, inBlock, wait, heap, x, fits, ends);
      Ranked(pool, t.inBlock, t.heap, priority)
  {
    forall y | y in wait * pool.children[x]
      ensures HasParentIn(pool, y, inBlock + {x})
    {
      assert x in pool.parents[y];
    }
    forall y | HasParentIn(pool, y, inBlock)
      ensures HasParentIn(pool, y, inBlock + {x})
    {
      var p :| p in pool.parents[y] && p in inBlock;
      assert p in inBlock + {x};
    }
  }

  /**
   What is left outside although its priority is above that of one in the block has a parent in the pool, or
   is kept out.
   */
  ghost predicate Outranked(pool: Pool, inBlock: set<Id>, b: Fill, priority: Id -> int) {
    pool.Valid() && forall x, y :: x in inBlock && y in pool.txs && y !in inBlock && priority(y) > priority(x) ==>
      HasParentIn(pool, y, inBlock) || !(pool.parents[y] <= inBlock) || KeptOut(pool.txs[y], b)
  }

  lemma OutrankedAtEnd(pool: Pool, inBlock: set<Id>, wait: set<Id>, heap: set<Id>, refused: set<Id>, b: Fill,
                       priority: Id -> int)
    requires Apart(pool, inBlock, wait, heap, refused) && NoneFits(pool, refused, b)
    requires Ranked(pool, inBlock, heap, priority)
    ensures Outranked(pool, inBlock, b, priority)
  {
  }

  lemma OutrankedAfter(pool: Pool, inBlock: set<Id>, wait: set<Id>, heap: set<Id>, refused: set<Id>, x: Id, b: Fill,
                       priority: Id -> int)
    requires ForgottenAfter(pool, inBlock, wait, x) && NoneFits(pool, refused, b)
    requires pool.txs.Keys <= inBlock + wait + heap + refused && Ranked(pool, inBlock, heap, priority)
    ensures Outranked(pool, inBlock, b, priority)
  {
    forall y | y in wait && pool.parents[y] <= inBlock
      ensures HasParentIn(pool, y, inBlock)
    {
      assert x in pool.parents[y];
    }
  }

  /** Every waiting transaction misses a parent. */
  ghost predicate AllDependent(pool: Pool, inBlock: set<Id>, wait: set<Id>) {
    pool.Valid() && forall y :: y in wait ==> y in pool.txs && y !in inBlock && !(pool.parents[y] <= inBlock)
  }

  lemma ApartWaits(pool: Pool, inBlock: set<Id>, wait: set<Id>, heap: set<Id>, refused: set<Id>)
    requires Apart(pool, inBlock, wait, heap, refused)
    ensures AllDependent(pool, inBlock, wait)
  {
  }

  /**
   Every waiting transaction missed a parent before x, the last one, was added. It still
   does unless x is a parent of it and all its other parents were in.
   */
  ghost predicate ForgottenAfter(pool: Pool, inBlock: set<Id>, wait: set<Id>, x: Id) {
    && pool.Valid() && x in inBlock && x in pool.txs && AllDependent(pool, inBlock - {x}, wait)
    && forall y :: y in wait ==>
         (y in pool.txs && y !in inBlock &&
           (pool.parents[y] <= inBlock <==> y in pool.children[x] && pool.parents[y] - {x} <= inBlock))
  }

  /** Stopping at x forgets, among the waiting, its children whose other parents are all in the block. */
  lemma EarlyStopForgets(pool: Pool, inBlock: set<Id>, x: Id, wait: set<Id>, heap: set<Id>, refused: set<Id>)
    requires Apart(pool, inBlock, wait, heap, refused) && x in heap
    ensures x !in inBlock && ForgottenAfter(pool, inBlock + {x}, wait, x)
  {
    assert inBlock + {x} - {x} == inBlock;
  }

  /** A parent and its child. */
  const FAMILY := Pool(map[0 := Tx(200, 1, 0, false, true), 1 := Tx(200, 1, 0, false, true)],
                       map[0 := {}, 1 := {0}], map[0 := {1}, 1 := {}])

  lemma FamilyTurns()
    ensures FAMILY.Valid() && FAMILY.txs.Keys == {0, 1} && Apart(FAMILY, {}, {}, {0, 1}, {})
    ensures forall fits, ends :: PriorityTurn(FAMILY, {}, {}, {0, 1}, 1, fits, ends) == Turn({}, {1}, {0}, false)
    ensures PriorityTurn(FAMILY, {}, {1}, {0}, 0, true, true) == Turn({0}, {1}, {}, true)
    ensures !PriorityTurn(FAMILY, {}, {1}, {0}, 0, true, false).stop
    ensures 0 in PriorityTurn(FAMILY, {}, {1}, {0}, 0, true, false).inBlock
    ensures FAMILY.parents[1] <= {0}
  {
  }

  /** The child is tried first, and waits. */
  method TryChild(a: Assembler) returns (wait: set<Id>, heap: set<Id>, ghost refused: set<Id>)
    requires a.pool == FAMILY && a.Choosing({}, {0, 1}, {}) && a.inBlock == {}
    modifies a
    ensures wait == {1} && heap == {0} && a.inBlock == {} && a.Choosing(wait, heap, refused)
  {
    FamilyTurns();
    var stop;
    stop, wait, heap, refused := a.PriorityStep(1, {}, {0, 1}, {}, true);
  }

  /** The parent then fills the room for priority, and the selection ends. */
  method TryParent(a: Assembler, ghost refused: set<Id>) returns (wait: set<Id>)
    requires a.pool == FAMILY && a.inBlock == {} && a.Choosing({1}, {0}, refused)
    requires a.startSize == 1000 && a.startShielded == 0 && !a.saplingMaintenance && a.nBlockMaxSize == 100000
    requires a.nBlockPrioritySize == 1100
    modifies a
    ensures a.Valid() && a.inBlock == {0} && wait == {1} && ForgottenAfter(FAMILY, a.inBlock, wait, 0)
  {
    FamilyTurns();
    a.EmptyRoom();
    assert a.Admissible(0);
    var stop, heap;
    ghost var r;
    stop, wait, heap, r := a.PriorityStep(0, {1}, {0}, refused, true);
    if a.inBlock == {0} {
      a.RoomWithOne(0);
    }
  }

  /**
   A child that is tried before its parent waits; the parent then fills the room for
   priority, and the selection ends with the child waiting for nothing.
   */
  method ForgottenChild() returns (a: Assembler, wait: set<Id>)
    ensures a.Valid() && a.pool == FAMILY && a.inBlock == {0} && wait == {1}
    ensures ForgottenAfter(FAMILY, a.inBlock, wait, 0) && FAMILY.parents[1] <= a.inBlock
  {
    FamilyTurns();
    a := new Assembler(FAMILY, 100000, 0, 1100, false, 1000, 0);
    var heap;
    ghost var refused;
    wait, heap, refused := TryChild(a);
    wait := TryParent(a, refused);
  }

  /** What becomes of x, taken off the heap: it waits, is refused, or is added and readies its children. */
  lemma ApartSteps(pool: Pool, inBlock: set<Id>, x: Id, wait: set<Id>, heap: set<Id>, refused: set<Id>)
    requires Apart(pool, inBlock, wait, heap, refused) && x in heap
    ensures !(pool.parents[x] <= inBlock) ==> Apart(pool, inBlock, wait + {x}, heap - {x}, refused)
    ensures pool.parents[x] <= inBlock ==> Apart(pool, inBlock, wait, heap - {x}, refused + {x})
    ensures Apart(pool, inBlock + {x}, wait - pool.children[x], heap - {x} + wait * pool.children[x], refused)
  {
    var rest, all := heap - {x}, pool.txs.Keys;
    assert rest + {x} == heap;
    if pool.parents[x] <= inBlock {
      RefusedAccounted(pool, inBlock, x, all, wait, rest, refused);
    } else {
      WaitingAccounted(pool, inBlock, x, all, wait, rest, refused);
    }
    AddedAccounted(pool, inBlock, x, all, wait, rest, refused);
  }

  /** The transactions already in the block stay in front. */
  ghost predicate Extends(a: seq<Id>, b: seq<Id>) { a <= b }

  /** When all in order have been looked at and none is ready, the block is full. */
  lemma ScanDone(pool: Pool, inBlock: set<Id>, order: seq<Id>, wait: set<Id>, refused: set<Id>, b: Fill)
    requires Elements(order) == pool.txs.Keys && NoneFits(pool, refused, b)
    requires Accounted(pool, inBlock, Elements(order[..|order|]), wait, {}, refused)
    ensures Full(pool, inBlock, b)
  {
    assert order[..|order|] == order;
    AllAccounted(pool, inBlock, wait, refused, b);
  }

  /** The next transaction in order is ready. */
  lemma ScanNext(pool: Pool, inBlock: set<Id>, order: seq<Id>, mi: nat, wait: set<Id>, refused: set<Id>)
    requires mi < |order| && Elements(order) == pool.txs.Keys
    requires Accounted(pool, inBlock, Elements(order[..mi]), wait, {}, refused)
    ensures Accounted(pool, inBlock, Elements(order[..mi + 1]), wait, {} + {order[mi]}, refused)
  {
    assert order[mi] in Elements(order);
    assert order[..mi + 1] == order[..mi] + [order[mi]];
    ElementsNext(order[..mi], order[mi]);
  }
}
