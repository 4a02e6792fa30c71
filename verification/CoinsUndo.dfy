/**
 Disconnecting a block: its outputs are taken out of the view and the coins it spent put
 back from the undo data, transaction by transaction from the last to the first. This
 undoes connecting it, but for an anchor that was already known.
 */
module CoinsUndo {
  import opened Common
  import opened CoinsModel
  import opened CoinsBlocks

  /** A block of 2000000 bytes over the nine bytes of an empty output. */
  const MAX_OUTPUTS_PER_BLOCK: nat := 2000000 / 9

  /** Some unspent output of the transaction, from its n-th on. */
  function Alternate(v: Coins, hash: nat, n: nat): Option<Coin>
    decreases MAX_OUTPUTS_PER_BLOCK - n
  {
    if n >= MAX_OUTPUTS_PER_BLOCK then None
    else if OutPoint(hash, n) in v then Some(v[OutPoint(hash, n)])
    else Alternate(v, hash, n + 1)
  }

  /** The coin to put back; old undo data lacks the height, which another output of the transaction then tells. */
  function Filled(v: Coins, o: OutPoint, coin: Coin): Option<Coin> {
    if coin.height != 0 then Some(coin) else
    match Alternate(v, o.hash, 0)
    case None => None
    case Some(a) => Some(coin.(height := a.height, coinBase := a.coinBase, coinStake := a.coinStake))
  }

  function PutBack(v: Coins, o: OutPoint, coin: Coin): Coins { if coin.IsUnspendable() then v else v[o := coin] }

  /** The coins after the spends from the last down to number j are put back; none if one cannot be. */
  function RestoredFrom(v: Coins, spends: seq<OutPoint>, undo: seq<Coin>, j: nat): Option<Coins>
    requires j <= |spends| == |undo|
    decreases |spends| - j
  {
    if j == |spends| then Some(v) else
    match RestoredFrom(v, spends, undo, j + 1)
    case None => None
    case Some(w) =>
      match Filled(w, spends[j], undo[j])
      case None => None
      case Some(coin) => Some(PutBack(w, spends[j], coin))
  }

  /** The coins after the outputs that can be spent are taken out in turn. */
  function Retracted(v: Coins, outs: seq<Output>): Coins {
    if outs == [] then v else Without(Retracted(v, outs[..|outs| - 1]), outs[|outs| - 1])
  }

  function Without(v: Coins, out: Output): Coins { if out.1.IsUnspendable() then v else v - {out.0} }

  function UndoneTx(v: Coins, tx: Tx, undo: seq<Coin>): Option<Coins>
    requires |undo| == |tx.spends|
  {
    RestoredFrom(Retracted(v, tx.creates), tx.spends, undo, 0)
  }

  // ---- undoing is inverse

  lemma {:induction false} RetractedAre(v: Coins, outs: seq<Output>, o: OutPoint)
    ensures o in Retracted(v, outs) <==> o in v && forall i :: 0 <= i < |outs| ==> !CreatesAt(outs, i, o)
    ensures o in Retracted(v, outs) ==> Retracted(v, outs)[o] == v[o]
  {
    if outs != [] {
      var n := |outs| - 1;
      RetractedAre(v, outs[..n], o);
      assert forall i :: 0 <= i < n ==> CreatesAt(outs[..n], i, o) == CreatesAt(outs, i, o);
      assert CreatesAt(outs, n, o) ==> o !in Retracted(v, outs);
    }
  }

  /** New outputs are at places the view did not have, and no two are at the same. */
  lemma NewPlaces(v: Coins, outs: seq<Output>, i: nat, o: OutPoint)
    requires AllNew(v, outs) && i < |outs| && CreatesAt(outs, i, o)
    ensures o !in v && forall k :: 0 <= k < i ==> !CreatesAt(outs, k, o)
  {
    CreatedAre(v, outs[..i], o);
    forall k | 0 <= k < i
      ensures !CreatesAt(outs, k, o)
    {
      assert CreatesAt(outs[..i], k, o) == CreatesAt(outs, k, o);
    }
  }

  lemma {:induction false} CreatedValue(v: Coins, outs: seq<Output>, i: nat, o: OutPoint)
    requires AllNew(v, outs) && i < |outs| && CreatesAt(outs, i, o)
    ensures o in Created(v, outs) && Created(v, outs)[o] == outs[i].1
  {
    var n := |outs| - 1;
    if i < n {
      assert AllNew(v, outs[..n]) by {
        forall k | 0 <= k < n && !outs[..n][k].1.IsUnspendable()
          ensures outs[..n][k].0 !in Created(v, outs[..n][..k])
        {
          assert outs[..n][..k] == outs[..k];
        }
      }
      CreatedValue(v, outs[..n], i, o);
      if CreatesAt(outs, n, o) {
        NewPlaces(v, outs, n, o);
      }
    }
  }

  lemma {:induction false} CreatedKeeps(v: Coins, outs: seq<Output>, o: OutPoint)
    requires forall i :: 0 <= i < |outs| ==> !CreatesAt(outs, i, o)
    ensures Agree(Created(v, outs), v, o)
  {
    if outs != [] {
      var n := |outs| - 1;
      assert forall i :: 0 <= i < n ==> CreatesAt(outs[..n], i, o) == CreatesAt(outs, i, o);
      CreatedKeeps(v, outs[..n], o);
      assert !CreatesAt(outs, n, o);
    }
  }

  /** Taking out what was created leaves what was there. */
  lemma RetractsCreated(v: Coins, outs: seq<Output>)
    requires AllNew(v, outs)
    ensures Retracted(Created(v, outs), outs) == v
  {
    forall o
      ensures Agree(Retracted(Created(v, outs), outs), v, o)
    {
      RetractedAre(Created(v, outs), outs, o);
      if i :| 0 <= i < |outs| && CreatesAt(outs, i, o) {
        NewPlaces(v, outs, i, o);
      } else {
        CreatedKeeps(v, outs, o);
      }
    }
    SameView(Retracted(Created(v, outs), outs), v);
  }

  /** Every input is there, once, and complete. */
  ghost predicate InputsWhole(v: Coins, spends: seq<OutPoint>) {
    forall i :: 0 <= i < |spends| ==>
      var w := Removed(v, spends[..i]);
      spends[i] in w && w[spends[i]].height != 0 && !w[spends[i]].IsUnspendable()
  }

  /** Putting back what was spent leaves what was there. */
  lemma {:induction false} RestoresRemoved(v: Coins, spends: seq<OutPoint>, undo: seq<Coin>, j: nat)
    requires |undo| == |spends| && j <= |spends| && Undoes(v, spends, undo) && InputsWhole(v, spends)
    ensures RestoredFrom(Removed(v, spends), spends, undo, j) == Some(Removed(v, spends[..j]))
    decreases |spends| - j
  {
    if j == |spends| {
      assert spends[..j] == spends;
    } else {
      RestoresRemoved(v, spends, undo, j + 1);
      RestoreNext(Removed(v, spends), spends, undo, j, Removed(v, spends[..j + 1]));
      PutsBack(v, spends, undo, j);
    }
  }

  lemma PutsBack(v: Coins, spends: seq<OutPoint>, undo: seq<Coin>, j: nat)
    requires |undo| == |spends| && j < |spends| && Undoes(v, spends, undo) && InputsWhole(v, spends)
    ensures var now := Removed(v, spends[..j + 1]);
      Filled(now, spends[j], undo[j]) == Some(undo[j]) && PutBack(now, spends[j], undo[j]) == Removed(v, spends[..j])
  {
    var was, now := Removed(v, spends[..j]), Removed(v, spends[..j + 1]);
    assert Taken(was, spends[j], undo[j]);
    assert now == was - {spends[j]} by {
      assert spends[..j + 1][..j] == spends[..j];
    }
    assert now[spends[j] := undo[j]] == was;
  }

  /** Undoing a transaction gives back the coins before it. */
  lemma TxUndone(v: Coins, tx: Tx, undo: seq<Coin>)
    requires TxFits(v, tx) && |undo| == |tx.spends| && Undoes(v, tx.spends, undo) && InputsWhole(v, tx.spends)
    ensures UndoneTx(AfterTx(v, tx), tx, undo) == Some(v)
  {
    RetractsCreated(Removed(v, tx.spends), tx.creates);
    RestoresRemoved(v, tx.spends, undo, 0);
    assert tx.spends[..0] == [];
  }

  // ---- was the view as the block left it?

  predicate SameOutput(a: Coin, b: Coin) { a.value == b.value && a.script == b.script }

  /** Is the output there as the block has it, if it can be spent? */
  predicate Matches(v: Coins, out: Output) { out.1.IsUnspendable() || (out.0 in v && SameOutput(v[out.0], out.1)) }

  ghost predicate MatchesAt(v: Coins, outs: seq<Output>, i: nat)
    requires i < |outs|
  {
    Matches(Retracted(v, outs[..i]), outs[i])
  }

  /** The first n outputs are, when their turn comes. */
  ghost predicate OutputsMatch(v: Coins, outs: seq<Output>, n: nat)
    requires n <= |outs|
  {
    forall i :: 0 <= i < n ==> MatchesAt(v, outs, i)
  }

  lemma RetractNext(v: Coins, outs: seq<Output>, i: nat)
    requires i < |outs|
    ensures Retracted(v, outs[..i + 1]) == Without(Retracted(v, outs[..i]), outs[i])
    ensures OutputsMatch(v, outs, i + 1) <==> OutputsMatch(v, outs, i) && Matches(Retracted(v, outs[..i]), outs[i])
  {
    assert outs[..i + 1][..i] == outs[..i];
    assert MatchesAt(v, outs, i) <==> Matches(Retracted(v, outs[..i]), outs[i]);
  }

  /** No coin is there that is to be put back. */
  ghost predicate NoneThere(v: Coins, spends: seq<OutPoint>, undo: seq<Coin>)
    requires |undo| == |spends|
  {
    NoneThereFrom(v, spends, undo, 0)
  }

  ghost predicate NoneThereFrom(v: Coins, spends: seq<OutPoint>, undo: seq<Coin>, lo: nat)
    requires |undo| == |spends|
  {
    forall j :: lo <= j < |spends| ==>
      var w := RestoredFrom(v, spends, undo, j + 1);
      w.Some? ==> spends[j] !in w.value
  }

  /** What putting back coin number j does to the coins that putting back the later ones left. */
  lemma RestoreNext(v: Coins, spends: seq<OutPoint>, undo: seq<Coin>, j: nat, w: Coins)
    requires |undo| == |spends| && j < |spends| && RestoredFrom(v, spends, undo, j + 1) == Some(w)
    ensures var coin := Filled(w, spends[j], undo[j]);
      RestoredFrom(v, spends, undo, j) == if coin.None? then None else Some(PutBack(w, spends[j], coin.value))
    ensures NoneThereFrom(v, spends, undo, j) <==> NoneThereFrom(v, spends, undo, j + 1) && spends[j] !in w
  {
  }

  /** A coin that cannot be put back ends it. */
  lemma {:induction false} RestoreStops(v: Coins, spends: seq<OutPoint>, undo: seq<Coin>, j: nat)
    requires |undo| == |spends| && j <= |spends| && RestoredFrom(v, spends, undo, j).None?
    ensures RestoredFrom(v, spends, undo, 0).None?
  {
    if j > 0 { RestoreStops(v, spends, undo, j - 1); }
  }

  ghost predicate TxTidy(v: Coins, tx: Tx, undo: seq<Coin>)
    requires |undo| == |tx.spends|
  {
    OutputsMatch(v, tx.creates, |tx.creates|) && NoneThere(Retracted(v, tx.creates), tx.spends, undo)
  }

  /** What a transaction created is there to be taken out. */
  lemma CreatedMatch(v: Coins, outs: seq<Output>)
    requires AllNew(v, outs)
    ensures OutputsMatch(Created(v, outs), outs, |outs|)
  {
    forall i | 0 <= i < |outs|
      ensures MatchesAt(Created(v, outs), outs, i)
    {
      var o := outs[i].0;
      if CreatesAt(outs, i, o) {
        NewPlaces(v, outs, i, o);
        CreatedValue(v, outs, i, o);
        assert forall k :: 0 <= k < i ==> CreatesAt(outs[..i], k, o) == CreatesAt(outs, k, o);
        RetractedAre(Created(v, outs), outs[..i], o);
      }
    }
  }

  lemma RemovedNotThere(v: Coins, spends: seq<OutPoint>, undo: seq<Coin>)
    requires |undo| == |spends| && Undoes(v, spends, undo) && InputsWhole(v, spends)
    ensures NoneThere(Removed(v, spends), spends, undo)
  {
    forall j | 0 <= j < |spends|
      ensures var w := RestoredFrom(Removed(v, spends), spends, undo, j + 1); w.Some? && spends[j] !in w.value
    {
      RemovedNotThereAt(v, spends, undo, j);
    }
  }

  lemma RemovedNotThereAt(v: Coins, spends: seq<OutPoint>, undo: seq<Coin>, j: nat)
    requires |undo| == |spends| && j < |spends| && Undoes(v, spends, undo) && InputsWhole(v, spends)
    ensures var w := RestoredFrom(Removed(v, spends), spends, undo, j + 1); w.Some? && spends[j] !in w.value
  {
    RestoresRemoved(v, spends, undo, j + 1);
    RemovedAre(v, spends[..j + 1], spends[j]);
    assert spends[..j + 1][j] == spends[j];
  }

  lemma TidyAfter(v: Coins, tx: Tx, undo: seq<Coin>)
    requires TxFits(v, tx) && |undo| == |tx.spends| && Undoes(v, tx.spends, undo) && InputsWhole(v, tx.spends)
    ensures TxTidy(AfterTx(v, tx), tx, undo)
  {
    var w := Removed(v, tx.spends);
    CreatedMatch(w, tx.creates);
    RetractsCreated(w, tx.creates);
    RemovedNotThere(v, tx.spends, undo);
  }

  // ---- whole blocks

  /** The coins after the transactions from the last down to number i are undone. */
  ghost function UndoneFrom(v: Coins, txs: seq<Tx>, undos: seq<seq<Coin>>, i: nat): Option<Coins>
    requires i <= |txs| == |undos|
    decreases |txs| - i
  {
    if i == |txs| then Some(v) else
    var w := UndoneFrom(v, txs, undos, i + 1);
    if w.None? || |undos[i]| != |txs[i].spends| then None else UndoneTx(w.value, txs[i], undos[i])
  }

  ghost predicate TidyAt(v: Coins, txs: seq<Tx>, undos: seq<seq<Coin>>, i: nat)
    requires i < |txs| == |undos|
  {
    var w := UndoneFrom(v, txs, undos, i + 1);
    w.Some? && |undos[i]| == |txs[i].spends| ==> TxTidy(w.value, txs[i], undos[i])
  }

  ghost predicate TidyFrom(v: Coins, txs: seq<Tx>, undos: seq<seq<Coin>>, lo: nat)
    requires |txs| == |undos|
  {
    forall i :: lo <= i < |txs| ==> TidyAt(v, txs, undos, i)
  }

  lemma {:induction false} UndoStops(v: Coins, txs: seq<Tx>, undos: seq<seq<Coin>>, i: nat)
    requires i <= |txs| == |undos| && UndoneFrom(v, txs, undos, i).None?
    ensures UndoneFrom(v, txs, undos, 0).None?
  {
    if i > 0 { UndoStops(v, txs, undos, i - 1); }
  }

  /** What undoing transaction number i does to the coins that undoing the later ones left. */
  lemma UndoneNext(v: Coins, txs: seq<Tx>, undos: seq<seq<Coin>>, i: nat, w: Coins)
    requires i < |txs| == |undos| && UndoneFrom(v, txs, undos, i + 1) == Some(w)
    ensures UndoneFrom(v, txs, undos, i) == if |undos[i]| != |txs[i].spends| then None
      else UndoneTx(w, txs[i], undos[i])
    ensures TidyFrom(v, txs, undos, i) <==>
      TidyFrom(v, txs, undos, i + 1) && (|undos[i]| == |txs[i].spends| ==> TxTidy(w, txs[i], undos[i]))
  {
    assert TidyAt(v, txs, undos, i) <==> (|undos[i]| == |txs[i].spends| ==> TxTidy(w, txs[i], undos[i]));
  }

  /** Each transaction finds its inputs, once each and complete. */
  ghost predicate BlockWhole(v: Coins, txs: seq<Tx>) {
    forall i :: 0 <= i < |txs| ==> InputsWhole(AfterBlock(v, txs[..i]), txs[i].spends)
  }

  /** Undoing a block backwards passes through the states that connecting it passed through. */
  lemma {:induction false} BlockUndone(v: Coins, txs: seq<Tx>, undos: seq<seq<Coin>>, i: nat)
    requires BlockFits(v, txs) && BlockWhole(v, txs) && |undos| == |txs| && BlockUndoes(v, txs, undos) && i <= |txs|
    ensures UndoneFrom(AfterBlock(v, txs), txs, undos, i) == Some(AfterBlock(v, txs[..i]))
    decreases |txs| - i
  {
    if i == |txs| {
      assert txs[..i] == txs;
    } else {
      BlockUndone(v, txs, undos, i + 1);
      AfterBlockNext(v, txs, i);
      assert UndoesTx(v, txs, i, undos[i]);
      TxUndone(AfterBlock(v, txs[..i]), txs[i], undos[i]);
    }
  }

  lemma ConnectedIsTidy(v: Coins, txs: seq<Tx>, undos: seq<seq<Coin>>)
    requires BlockFits(v, txs) && BlockWhole(v, txs) && |undos| == |txs| && BlockUndoes(v, txs, undos)
    ensures TidyFrom(AfterBlock(v, txs), txs, undos, 0)
  {
    forall i | 0 <= i < |txs|
      ensures TidyAt(AfterBlock(v, txs), txs, undos, i)
    {
      ConnectedIsTidyAt(v, txs, undos, i);
    }
  }

  lemma ConnectedIsTidyAt(v: Coins, txs: seq<Tx>, undos: seq<seq<Coin>>, i: nat)
    requires BlockFits(v, txs) && BlockWhole(v, txs) && |undos| == |txs| && BlockUndoes(v, txs, undos) && i < |txs|
    ensures TidyAt(AfterBlock(v, txs), txs, undos, i)
  {
    BlockUndone(v, txs, undos, i + 1);
    AfterBlockNext(v, txs, i);
    assert UndoesTx(v, txs, i, undos[i]);
    TidyAfter(AfterBlock(v, txs[..i]), txs[i], undos[i]);
  }

  // ---- undo data of a connected block

  lemma {:induction false} CreatedUnspent(v: Coins, outs: seq<Output>)
    requires Unspent(v) && NoneSpent(outs)
    ensures Unspent(Created(v, outs))
  {
    if outs != [] {
      CreatedUnspent(v, outs[..|outs| - 1]);
      assert !outs[|outs| - 1].1.IsSpent();
    }
  }

  lemma {:induction false} RemovedUnspent(v: Coins, spends: seq<OutPoint>)
    requires Unspent(v)
    ensures Unspent(Removed(v, spends))
  {
    if spends != [] { RemovedUnspent(v, spends[..|spends| - 1]); }
  }

  lemma {:induction false} AfterBlockUnspent(v: Coins, txs: seq<Tx>, i: nat)
    requires Unspent(v) && BlockFits(v, txs) && i <= |txs|
    ensures Unspent(AfterBlock(v, txs[..i]))
  {
    if i > 0 {
      AfterBlockUnspent(v, txs, i - 1);
      AfterBlockNext(v, txs, i - 1);
      var w, tx := AfterBlock(v, txs[..i - 1]), txs[i - 1];
      assert TxFits(w, tx);
      RemovedUnspent(w, tx.spends);
      CreatedUnspent(Removed(w, tx.spends), tx.creates);
    }
  }

  /** The coins a block took are unspent ones. */
  lemma UndoUnspent(v: Coins, txs: seq<Tx>, undos: seq<seq<Coin>>, i: nat, j: nat)
    requires Unspent(v) && BlockFits(v, txs) && BlockWhole(v, txs) && |undos| == |txs| && BlockUndoes(v, txs, undos)
    requires i < |undos| && j < |undos[i]|
    ensures !undos[i][j].IsSpent()
  {
    assert UndoesTx(v, txs, i, undos[i]);
    var w, spends := AfterBlock(v, txs[..i]), txs[i].spends;
    AfterBlockUnspent(v, txs, i);
    RemovedUnspent(w, spends[..j]);
    assert Taken(Removed(w, spends[..j]), spends[j], undos[i][j]);
    assert InputsWhole(w, spends);
  }

  ghost predicate Complete(undo: seq<Coin>) { forall j :: 0 <= j < |undo| ==> !undo[j].IsSpent() }

  /** No output is a spent one, nor any coin to be put back. */
  ghost predicate AllComplete(txs: seq<Tx>, undos: seq<seq<Coin>>) {
    && (forall i :: 0 <= i < |txs| ==> NoneSpent(txs[i].creates))
    && (forall i :: 0 <= i < |undos| ==> Complete(undos[i]))
  }

  /** The undo data of a connected block is complete, undoes it, and finds the view as the block left it. */
  lemma UndoIsReady(v: Coins, txs: seq<Tx>, undos: seq<seq<Coin>>)
    requires Unspent(v) && BlockFits(v, txs) && BlockWhole(v, txs) && |undos| == |txs| && BlockUndoes(v, txs, undos)
    ensures AllComplete(txs, undos)
    ensures UndoneFrom(AfterBlock(v, txs), txs, undos, 0) == Some(v) && TidyFrom(AfterBlock(v, txs), txs, undos, 0)
  {
    forall i | 0 <= i < |txs|
      ensures NoneSpent(txs[i].creates) && Complete(undos[i])
    {
      assert TxFits(AfterBlock(v, txs[..i]), txs[i]);
      forall j | 0 <= j < |undos[i]|
        ensures !undos[i][j].IsSpent()
      {
        UndoUnspent(v, txs, undos, i, j);
      }
    }
    BlockUndone(v, txs, undos, 0);
    assert txs[..0] == [];
    ConnectedIsTidy(v, txs, undos);
  }
}
