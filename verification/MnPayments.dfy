/**
 Masternode payment votes: every stored vote counts once in the tally of its height, and
 a block filled from the tallies pays whom they require.
 */
module MnPayments {
  import opened Common

  type Hash = nat
  type Script = seq<nat>

  datatype Winner = Winner(masternode: nat, nBlockHeight: int, payee: Script)
  datatype Payee = Payee(script: Script, nVotes: int)
  /** The tally of one height. */
  datatype BlockPayees = BlockPayees(nBlockHeight: int, vecPayments: seq<Payee>)
  datatype TxOut = TxOut(script: Script, value: int)

  const SIGNATURES_REQUIRED: int := 6

  // ---- one tally

  ghost predicate DistinctScripts(v: seq<Payee>) {
    forall i, j :: 0 <= i < j < |v| ==> v[i].script != v[j].script
  }

  /** The votes that a list records for a script, from entry i on. */
  function VotesFrom(v: seq<Payee>, p: Script, i: nat): int
    requires i <= |v|
    decreases |v| - i
  {
    if i == |v| then 0 else if v[i].script == p then v[i].nVotes else VotesFrom(v, p, i + 1)
  }
  function Votes(v: seq<Payee>, p: Script): int { VotesFrom(v, p, 0) }

  lemma {:induction false} VotesAt(v: seq<Payee>, k: nat, i: nat)
    requires i <= k < |v| && DistinctScripts(v)
    ensures VotesFrom(v, v[k].script, i) == v[k].nVotes
    decreases k - i
  {
    if i < k {
      VotesAt(v, k, i + 1);
    }
  }

  lemma {:induction false} VotesNone(v: seq<Payee>, p: Script, i: nat)
    requires i <= |v| && forall k :: i <= k < |v| ==> v[k].script != p
    ensures VotesFrom(v, p, i) == 0
    decreases |v| - i
  {
    if i < |v| {
      VotesNone(v, p, i + 1);
    }
  }

  lemma {:induction false} VotesSame(v: seq<Payee>, w: seq<Payee>, p: Script, i: nat)
    requires i <= |v| <= |w|
    requires (forall k :: 0 <= k < |v| ==> v[k].script == w[k].script && (v[k].script == p ==> v[k] == w[k]))
    requires forall k :: |v| <= k < |w| ==> w[k].script != p
    ensures VotesFrom(v, p, i) == VotesFrom(w, p, i)
    decreases |v| - i
  {
    if i < |v| {
      VotesSame(v, w, p, i + 1);
    } else {
      VotesNone(w, p, i);
    }
  }

  /** The tally w is v with one more count for p. */
  ghost predicate OneMore(v: seq<Payee>, w: seq<Payee>, p: Script, n: int) {
    forall q :: Votes(w, q) == Votes(v, q) + if q == p then n else 0
  }

  /** The payees of v come first in w, in the same order, and at most one comes after them. */
  ghost predicate SameOrder(v: seq<Payee>, w: seq<Payee>) {
    |v| <= |w| <= |v| + 1 && forall k :: 0 <= k < |v| ==> w[k].script == v[k].script
  }

  /** Adds to the payee's count, or starts one. */
  method AddPayee(b: BlockPayees, p: Script, n: int) returns (r: BlockPayees)
    requires DistinctScripts(b.vecPayments)
    ensures r.nBlockHeight == b.nBlockHeight && DistinctScripts(r.vecPayments) && r.vecPayments != []
    ensures OneMore(b.vecPayments, r.vecPayments, p, n) && SameOrder(b.vecPayments, r.vecPayments)
    ensures (forall k :: 0 <= k < |b.vecPayments| ==> b.vecPayments[k].nVotes > 0) && n > 0 ==>
      forall k :: 0 <= k < |r.vecPayments| ==> r.vecPayments[k].nVotes > 0
  {
    var v := b.vecPayments;
    for i := 0 to |v|
      invariant forall k :: 0 <= k < i ==> v[k].script != p
    {
      if v[i].script == p {
        var w := v[i := Payee(p, v[i].nVotes + n)];
        CountedUp(v, w, i, n);
        return b.(vecPayments := w);
      }
    }
    var w := v + [Payee(p, n)];
    Appended(v, w, p, n);
    r := b.(vecPayments := w);
  }

  lemma CountedUp(v: seq<Payee>, w: seq<Payee>, i: nat, n: int)
    requires i < |v| && DistinctScripts(v) && w == v[i := Payee(v[i].script, v[i].nVotes + n)]
    ensures DistinctScripts(w) && OneMore(v, w, v[i].script, n)
  {
    assert DistinctScripts(w);
    forall q
      ensures Votes(w, q) == Votes(v, q) + if q == v[i].script then n else 0
    {
      if q == v[i].script {
        VotesAt(v, i, 0);
        VotesAt(w, i, 0);
      } else {
        VotesSame(v, w, q, 0);
      }
    }
  }

  lemma Appended(v: seq<Payee>, w: seq<Payee>, p: Script, n: int)
    requires DistinctScripts(v) && (forall k :: 0 <= k < |v| ==> v[k].script != p) && w == v + [Payee(p, n)]
    ensures DistinctScripts(w) && OneMore(v, w, p, n)
  {
    forall q
      ensures Votes(w, q) == Votes(v, q) + if q == p then n else 0
    {
      if q == p {
        VotesNone(v, q, 0);
        VotesAt(w, |v|, 0);
      } else {
        VotesSame(v, w, q, 0);
      }
    }
  }

  /** The payee with the most votes, the first of them if several. */
  method GetPayee(b: BlockPayees) returns (r: Option<Script>)
    ensures r.None? ==> forall k :: 0 <= k < |b.vecPayments| ==> b.vecPayments[k].nVotes <= -1
    ensures r.Some? ==> exists m ::
      0 <= m < |b.vecPayments| && b.vecPayments[m].script == r.value && IsTop(b.vecPayments, m)
  {
    var v := b.vecPayments;
    r := None;
    var nVotes := -1;
    ghost var m := 0;
    for i := 0 to |v|
      invariant nVotes >= -1 && (forall k :: 0 <= k < i ==> v[k].nVotes <= nVotes) && (r.None? ==> nVotes == -1)
      invariant r.Some? ==> 0 <= m < i && r.value == v[m].script && nVotes == v[m].nVotes && forall k ::
        0 <= k < m ==> v[k].nVotes < nVotes
    {
      if v[i].nVotes > nVotes {
        r, nVotes, m := Some(v[i].script), v[i].nVotes, i;
      }
    }
  }

  /** Entry m has the most votes, and is the first with that many. */
  ghost predicate IsTop(v: seq<Payee>, m: nat) {
    m < |v| && (forall k :: 0 <= k < |v| ==> v[k].nVotes <= v[m].nVotes) && forall k ::
      0 <= k < m ==> v[k].nVotes < v[m].nVotes
  }

  /** Does the transaction pay the script the amount? */
  predicate Pays(vout: seq<TxOut>, p: Script, amount: int) {
    exists i :: 0 <= i < |vout| && vout[i] == TxOut(p, amount)
  }

  /** No payee has the votes to be required, or one that does is paid. */
  predicate PaymentOk(b: BlockPayees, vout: seq<TxOut>, payment: int -> int) {
    || (forall k :: 0 <= k < |b.vecPayments| ==> b.vecPayments[k].nVotes < 6)
    || exists k :: 0 <= k < |b.vecPayments| && b.vecPayments[k].nVotes >= 6
         && Pays(vout, b.vecPayments[k].script, payment(b.nBlockHeight))
  }

  method IsPaid(vout: seq<TxOut>, p: Script, amount: int) returns (found: bool)
    ensures found <==> Pays(vout, p, amount)
  {
    found := false;
    for i := 0 to |vout|
      invariant found <==> exists j :: 0 <= j < i && vout[j] == TxOut(p, amount)
    {
      if vout[i].script == p && vout[i].value == amount {
        found := true;
      }
    }
  }

  method TallyAccepts(b: BlockPayees, vout: seq<TxOut>, payment: int -> int) returns (ok: bool)
    ensures ok <==> PaymentOk(b, vout, payment)
  {
    var v := b.vecPayments;
    var nMax := 0;
    for i := 0 to |v|
      invariant nMax >= 0 && (nMax < SIGNATURES_REQUIRED ==> nMax == 0)
      invariant nMax == 0 <==> forall k :: 0 <= k < i ==> v[k].nVotes < SIGNATURES_REQUIRED
    {
      if v[i].nVotes >= nMax && v[i].nVotes >= SIGNATURES_REQUIRED {
        nMax := v[i].nVotes;
      }
    }
    if nMax < SIGNATURES_REQUIRED {
      return true;
    }
    var required := payment(b.nBlockHeight);
    for i := 0 to |v|
      invariant forall k :: 0 <= k < i && v[k].nVotes >= SIGNATURES_REQUIRED ==> !Pays(vout, v[k].script, required)
    {
      var found := IsPaid(vout, v[i].script, required);
      if v[i].nVotes >= SIGNATURES_REQUIRED && found {
        return true;
      }
    }
    return false;
  }

  // ---- all tallies

  /** The stored votes for a height and payee. */
  function VotesOf(votes: map<Hash, Winner>, h: int, p: Script): set<Hash> {
    set k | k in votes && votes[k].nBlockHeight == h && votes[k].payee == p
  }

  /** One height's tally counts the stored votes for each payee. */
  ghost predicate TallyOk(votes: map<Hash, Winner>, h: int, b: BlockPayees) {
    && b.nBlockHeight == h && b.vecPayments != [] && DistinctScripts(b.vecPayments)
    && (forall k :: 0 <= k < |b.vecPayments| ==> b.vecPayments[k].nVotes > 0)
    && forall p :: Votes(b.vecPayments, p) == |VotesOf(votes, h, p)|
  }

  /** Tallies are right, and there is one exactly for each height with votes. */
  ghost predicate Tallied(votes: map<Hash, Winner>, blocks: map<int, BlockPayees>) {
    && (forall h :: h in blocks ==> TallyOk(votes, h, blocks[h]))
    && (forall k :: k in votes ==> votes[k].nBlockHeight in blocks)
  }

  /** A tally means votes. */
  lemma TallyHasVotes(votes: map<Hash, Winner>, blocks: map<int, BlockPayees>, h: int)
    requires Tallied(votes, blocks) && h in blocks
    ensures exists k :: k in votes && votes[k].nBlockHeight == h
  {
    var v := blocks[h].vecPayments;
    VotesAt(v, 0, 0);
    var s := VotesOf(votes, h, v[0].script);
    assert (forall k :: k !in s) ==> s == {};
    var k :| k in s;
  }

  lemma OneVoteMore(votes: map<Hash, Winner>, k: Hash, w: Winner, h: int, p: Script)
    requires k !in votes
    ensures |VotesOf(votes[k := w], h, p)| == |VotesOf(votes, h, p)| + if w.nBlockHeight == h && w.payee == p
      then 1 else 0
  {
    var a, b := VotesOf(votes, h, p), VotesOf(votes[k := w], h, p);
    var c := if w.nBlockHeight == h && w.payee == p then {k} else {};
    forall x
      ensures x in b <==> x in a + c
    {
    }
    assert b == a + c;
  }

  lemma NoVotes(votes: map<Hash, Winner>, blocks: map<int, BlockPayees>, h: int, p: Script)
    requires Tallied(votes, blocks) && h !in blocks
    ensures VotesOf(votes, h, p) == {}
  {
  }

  /** Storing a new vote and counting it keeps the tallies right. */
  lemma AddKeepsTallies(votes: map<Hash, Winner>, blocks: map<int, BlockPayees>, k: Hash, w: Winner,
                        before: BlockPayees, after: BlockPayees)
    requires Tallied(votes, blocks) && k !in votes
    requires before == if w.nBlockHeight in blocks then blocks[w.nBlockHeight] else BlockPayees(w.nBlockHeight, [])
    requires after.nBlockHeight == before.nBlockHeight && after.vecPayments != [] && DistinctScripts(after.vecPayments)
    requires forall i :: 0 <= i < |after.vecPayments| ==> after.vecPayments[i].nVotes > 0
    requires OneMore(before.vecPayments, after.vecPayments, w.payee, 1)
    ensures Tallied(votes[k := w], blocks[w.nBlockHeight := after])
  {
    var h := w.nBlockHeight;
    forall g | g in blocks && g != h
      ensures TallyOk(votes[k := w], g, blocks[g])
    {
      forall p ensures Votes(blocks[g].vecPayments, p) ==
        |VotesOf(votes[k := w], g, p)| { OneVoteMore(votes, k, w, g, p); }
    }
    forall p
      ensures Votes(after.vecPayments, p) == |VotesOf(votes[k := w], h, p)|
    {
      OneVoteMore(votes, k, w, h, p);
      if h !in blocks {
        NoVotes(votes, blocks, h, p);
      }
      assert Votes(before.vecPayments, p) == |VotesOf(votes, h, p)|;
    }
    assert TallyOk(votes[k := w], h, after);
  }

  /** The votes that are not too old, and the tallies of heights none of whose votes were. */
  function Recent(votes: map<Hash, Winner>, oldest: int): map<Hash, Winner> {
    map k | k in votes && votes[k].nBlockHeight >= oldest :: votes[k]
  }

  /** How many heights back votes are kept: one and a quarter for each masternode, but at least a thousand. */
  function KeptHeights(mnCount: nat): nat { if mnCount * 5 / 4 > 1000 then mnCount * 5 / 4 else 1000 }

  function RecentBlocks(blocks: map<int, BlockPayees>, oldest: int): map<int, BlockPayees> {
    map h | h in blocks && h >= oldest :: blocks[h]
  }

  lemma CleanKeepsTallies(votes: map<Hash, Winner>, blocks: map<int, BlockPayees>, oldest: int)
    requires Tallied(votes, blocks)
    ensures Tallied(Recent(votes, oldest), RecentBlocks(blocks, oldest))
  {
    forall h | h in blocks && h >= oldest
      ensures TallyOk(Recent(votes, oldest), h, blocks[h])
    {
      forall p ensures VotesOf(Recent(votes, oldest), h, p) == VotesOf(votes, h, p) {}
    }
  }

  /** Part way through removing what is older, with the votes of todo still to be looked at. */
  ghost predicate Cleaning(v: map<Hash, Winner>, b: map<int, BlockPayees>, votes: map<Hash, Winner>, blocks: map<int,
                           BlockPayees>,
                           todo: set<Hash>, oldest: int) {
    && todo <= votes.Keys
    && (forall k :: k in votes ==> k in v && votes[k] == v[k])
    && (forall k :: k in votes ==> k in todo || v[k].nBlockHeight >= oldest)
    && (forall k :: k in v && k !in votes ==> v[k].nBlockHeight < oldest && v[k].nBlockHeight !in blocks)
    && (forall h :: h in blocks ==> h in b && blocks[h] == b[h])
    && (forall h :: h in b && h !in blocks ==> h < oldest)
  }

  lemma CleaningNext(v: map<Hash, Winner>, b: map<int, BlockPayees>, votes: map<Hash, Winner>, blocks: map<int,
                     BlockPayees>,
                     todo: set<Hash>, oldest: int, k: Hash)
    requires Cleaning(v, b, votes, blocks, todo, oldest) && k in todo
    ensures var h := votes[k].nBlockHeight;
      if h < oldest then Cleaning(v, b, votes - {k}, blocks - {h}, todo - {k}, oldest)
      else Cleaning(v, b, votes, blocks, todo - {k}, oldest)
  {
  }

  lemma CleaningDone(v: map<Hash, Winner>, b: map<int, BlockPayees>, votes: map<Hash, Winner>, blocks: map<int,
                     BlockPayees>, oldest: int)
    requires Tallied(v, b) && Cleaning(v, b, votes, blocks, {}, oldest)
    ensures votes == Recent(v, oldest) && blocks == RecentBlocks(b, oldest) && Tallied(votes, blocks)
  {
    forall h | h in b && h < oldest
      ensures h !in blocks
    {
      TallyHasVotes(v, b, h);
      var k :| k in v && v[k].nBlockHeight == h;
      assert k !in votes;
    }
    var r := Recent(v, oldest);
    forall k
      ensures k in votes <==> k in r
    {
      assert k in v && k !in votes ==> v[k].nBlockHeight < oldest;
    }
    assert votes == r;
    var c := RecentBlocks(b, oldest);
    forall h
      ensures h in blocks <==> h in c
    {
      assert h in b && h !in blocks ==> h < oldest;
      assert h in b && h < oldest ==> h !in blocks;
    }
    assert blocks == c;
    CleanKeepsTallies(v, b, oldest);
  }

  class Payments {
    const hash: Winner -> Hash
    var votes: map<Hash, Winner>
    var blocks: map<int, BlockPayees>
    var lastVote: map<nat, int>

    ghost predicate Valid()
      reads this
    {
      Tallied(votes, blocks)
    }

    constructor (h: Winner -> Hash)
      ensures Valid() && votes == map[] && blocks == map[]
    {
      hash, votes, blocks, lastVote := h, map[], map[], map[];
    }

    method Clear()
      modifies this`votes, this`blocks
      ensures Valid() && votes == map[] && blocks == map[]
    {
      votes, blocks := map[], map[];
    }

    /** Remembers the last height a masternode voted for, and refuses to vote for it again. */
    method CanVote(masternode: nat, height: int) returns (r: bool)
      modifies this`lastVote
      ensures r <==> !(masternode in old(lastVote) && old(lastVote)[masternode] == height)
      ensures lastVote == old(lastVote)[masternode := height]
    {
      r := true;
      if masternode in lastVote && lastVote[masternode] == height {
        r := false;
        assert lastVote == lastVote[masternode := height];
        return;
      }
      lastVote := lastVote[masternode := height];
    }

    /** Stores a vote that is new and not too far ahead, and counts it. */
    method AddWinningMasternode(w: Winner, bestHeight: int) returns (ok: bool)
      requires Valid()
      modifies this`votes, this`blocks
      ensures Valid()
      ensures ok <==> w.nBlockHeight - 100 <= bestHeight + 1 && hash(w) !in old(votes)
      ensures ok ==> votes == old(votes)[hash(w) := w] && w.nBlockHeight in blocks
      ensures ok ==> blocks == old(blocks)[w.nBlockHeight := blocks[w.nBlockHeight]]
      ensures ok && w.nBlockHeight in old(blocks) ==>
        SameOrder(old(blocks)[w.nBlockHeight].vecPayments, blocks[w.nBlockHeight].vecPayments)
      ensures !ok ==> votes == old(votes) && blocks == old(blocks)
    {
      if w.nBlockHeight - 100 > bestHeight + 1 || hash(w) in votes {
        return false;
      }
      var b := if w.nBlockHeight in blocks then blocks[w.nBlockHeight] else BlockPayees(w.nBlockHeight, []);
      var a := AddPayee(b, w.payee, 1);
      AddKeepsTallies(votes, blocks, hash(w), w, b, a);
      votes := votes[hash(w) := w];
      blocks := blocks[w.nBlockHeight := a];
      ok := true;
    }

    /** Removes the votes for heights too far back, and their tallies. */
    method CleanPaymentList(mnCount: nat, nHeight: int)
      requires Valid()
      modifies this`votes, this`blocks
      ensures Valid() && votes == Recent(old(votes), nHeight - KeptHeights(mnCount))
      ensures blocks == RecentBlocks(old(blocks), nHeight - KeptHeights(mnCount))
      ensures votes.Keys <= old(votes).Keys
      ensures forall k :: k in old(votes) ==>
        var age := nHeight - old(votes)[k].nBlockHeight;
        k in votes <==> age <= 1000 || 4 * age <= 5 * mnCount
    {
      var limit := KeptHeights(mnCount);
      ghost var v, b := votes, blocks;
      var todo := votes.Keys;
      ghost var oldest := nHeight - limit;
      while todo != {}
        invariant Cleaning(v, b, votes, blocks, todo, oldest)
        decreases |todo|
      {
        assert (forall k :: k !in todo) ==> todo == {};
        var k :| k in todo;
        CleaningNext(v, b, votes, blocks, todo, oldest, k);
        RemoveIfOld(k, limit, nHeight);
        todo := todo - {k};
      }
      CleaningDone(v, b, votes, blocks, oldest);
    }

    method RemoveIfOld(k: Hash, limit: int, nHeight: int)
      requires k in votes
      modifies this`votes, this`blocks
      ensures var h := old(votes)[k].nBlockHeight;
        if h < nHeight - limit then votes == old(votes) - {k} && blocks == old(blocks) - {h}
        else votes == old(votes) && blocks == old(blocks)
    {
      var h := votes[k].nBlockHeight;
      if nHeight - h > limit {
        votes := votes - {k};
        blocks := blocks - {h};
      }
    }

    method GetBlockPayee(h: int) returns (r: Option<Script>)
      requires Valid()
      ensures r.Some? <==> h in blocks
      ensures r.Some? ==>
        var list := blocks[h].vecPayments;
        exists m :: 0 <= m < |list| && list[m].script == r.value && IsTop(list, m)
    {
      r := None;
      if h in blocks {
        r := GetPayee(blocks[h]);
        assert blocks[h].vecPayments[0].nVotes > 0;
      }
    }

    method IsTransactionValid(vout: seq<TxOut>, h: int, payment: int -> int) returns (ok: bool)
      requires Valid()
      ensures ok <==> (h in blocks ==> PaymentOk(blocks[h], vout, payment))
    {
      ok := true;
      if h in blocks {
        ok := TallyAccepts(blocks[h], vout, payment);
      }
    }

    /**
     Adds the masternode payment to a block's first transaction: to the payee with the most
     votes, else to the current masternode, if there is one. The result satisfies the tallies
     exactly unless the height is zero, where nothing is added, and it did not before.
     */
    method FillBlockPayee(vout: seq<TxOut>, nHeight: int, proofOfStake: bool, current: Option<Script>,
                          payment: int -> int, blockValue: int)
      returns (r: seq<TxOut>)
      requires Valid()
      ensures nHeight == 0 ==> r == vout
      ensures (nHeight in blocks ==> PaymentOk(blocks[nHeight], r, payment))
        <==> nHeight != 0 || nHeight !in blocks || PaymentOk(blocks[nHeight], vout, payment)
      ensures nHeight != 0 && nHeight in blocks ==>
        exists m :: 0 <= m < |blocks[nHeight].vecPayments| && IsTop(blocks[nHeight].vecPayments, m)
          && r == Filled(vout, blocks[nHeight].vecPayments[m].script, proofOfStake, payment(nHeight), blockValue)
      ensures nHeight != 0 && nHeight !in blocks ==>
        r == if current.Some? then Filled(vout, current.value, proofOfStake, payment(nHeight), blockValue) else vout
      ensures nHeight != 0 && (nHeight in blocks || current.Some?) ==>
        if proofOfStake then vout < r && |r| == |vout| + 1 && r[|vout|].value == payment(nHeight)
        else |r| == 2 && r[0].value + r[1].value == blockValue && r[1].value == payment(nHeight)
    {
      r := vout;
      if nHeight == 0 {
        return;
      }
      var payee := GetBlockPayee(nHeight);
      if payee.None? {
        payee := current;
      }
      if payee.Some? {
        var amount := payment(nHeight);
        if proofOfStake {
          r := vout + [TxOut(payee.value, amount)];
        } else {
          var first := if |vout| > 0 then vout[0].script else [];
          r := [TxOut(first, blockValue - amount), TxOut(payee.value, amount)];
        }
        assert r[|r| - 1] == TxOut(payee.value, amount);
        assert Pays(r, payee.value, amount);
      }
    }
  }

  /** The outputs with the masternode payment last. */
  function Filled(vout: seq<TxOut>, p: Script, proofOfStake: bool, amount: int, blockValue: int): seq<TxOut> {
    if proofOfStake then vout + [TxOut(p, amount)]
    else [TxOut(if |vout| > 0 then vout[0].script else [], blockValue - amount), TxOut(p, amount)]
  }

  /** Six masternodes vote for the same payee of the first block. */
  const SIX_VOTES: map<Hash, Winner> := map k: Hash | 0 <= k < 6 :: Winner(k, 0, [])

  /** Their votes require a payment at height zero, which an unfilled transaction does not make. */
  lemma HeightZeroMayFail(payment: int -> int)
    ensures var tally := BlockPayees(0, [Payee([], 6)]);
      Tallied(SIX_VOTES, map[0 := tally]) && !PaymentOk(tally, [], payment)
  {
    var tally := BlockPayees(0, [Payee([], 6)]);
    assert tally.vecPayments[0].nVotes >= SIGNATURES_REQUIRED;
    forall p: Script
      ensures Votes(tally.vecPayments, p) == |VotesOf(SIX_VOTES, 0, p)|
    {
      if p == [] {
        VotesAt(tally.vecPayments, 0, 0);
        assert VotesOf(SIX_VOTES, 0, p) == {0, 1, 2, 3, 4, 5};
      } else {
        VotesNone(tally.vecPayments, p, 0);
        assert VotesOf(SIX_VOTES, 0, p) == {};
      }
    }
  }
}
