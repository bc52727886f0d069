/**
 Which outputs are unspent, told by the transactions alone: an output is there exactly if a block
 made it and none took it since. The coins that are patched block by block are measured against that.
 */
module Ledger {
  import opened Basics
  import opened Coins
  import opened CoinsCache
  import opened BlockEffects
  import opened BlockConnect
  import opened BlockTree
  import ChainState

  /** A transaction makes an output that can be spent: its script does not begin with the byte for data. */
  predicate Makes(tx: Tx, o: OutPoint) {
    tx.txid == o.hash && o.n < |tx.vout| && (tx.vout[o.n].script == [] || tx.vout[o.n].script[0] != 0x6a)
  }

  /** One of the first n transactions makes an output. */
  predicate Made(vtx: seq<Tx>, n: nat, o: OutPoint)
    requires n <= |vtx|
  {
    exists i :: 0 <= i < n && Makes(vtx[i], o)
  }

  /** One of the first n transactions, but not the coinbase, takes an output. */
  predicate Taken(vtx: seq<Tx>, n: nat, o: OutPoint)
    requires n <= |vtx|
  {
    exists k :: 0 < k < n && o in vtx[k].vin
  }

  // --- one transaction ------------------------------------------------------------------------------

  /** The record a transaction leaves holds just the outputs that can be spent. */
  lemma FreshRecord(tx: Tx, height: int, o: OutPoint)
    requires TxWellFormed(tx) && tx.txid == o.hash
    ensures FromTx(tx, height).IsAvailable(o.n) <==> Makes(tx, o)
    ensures Makes(tx, o) ==> HoldsOutput(FromTx(tx, height), tx, height, o.n)
  {
    var c := Coins(tx.IsCoinBase(), tx.vout, height, tx.version);
    var d := c.(vout := WithoutUnspendable(c.vout));
    assert d.Cleanup().IsAvailable(o.n) == d.IsAvailable(o.n);
  }

  /** A record holds an output as its transaction made it, with height, coinbase mark and version. */
  predicate HoldsOutput(c: Coins, tx: Tx, height: int, n: nat) {
    && n < |tx.vout| && n < |c.vout| && c.vout[n] == tx.vout[n]
    && c.height == height && c.coinBase == tx.IsCoinBase() && c.version == tx.version
  }

  lemma SpendKeepsRecord(u: Utxo, q: OutPoint, o: OutPoint, tx: Tx, height: int)
    requires Available(u, o) && q != o && HoldsOutput(u[o.hash], tx, height, o.n)
    ensures Available(SpendOne(u, q), o) && HoldsOutput(SpendOne(u, q)[o.hash], tx, height, o.n)
  {
    SpendOneAvailable(u, q, o);
  }

  lemma {:induction false} SpendAllKeepsRecord(u: Utxo, outs: seq<OutPoint>, o: OutPoint, tx: Tx, height: int)
    requires Available(u, o) && o !in outs && HoldsOutput(u[o.hash], tx, height, o.n)
    ensures Available(SpendAll(u, outs), o) && HoldsOutput(SpendAll(u, outs)[o.hash], tx, height, o.n)
    decreases |outs|
  {
    hide Available, HoldsOutput, SpendOne;
    if outs != [] {
      var init := outs[..|outs| - 1];
      SpendAllKeepsRecord(u, init, o, tx, height);
      SpendKeepsRecord(SpendAll(u, init), outs[|outs| - 1], o, tx, height);
    }
  }

  /** A transaction leaves the outputs of others alone, but for those it takes. */
  lemma OthersOutput(u: Utxo, tx: Tx, height: int, o: OutPoint)
    requires o.hash != tx.txid
    ensures Available(ApplyTx(u, tx, height), o) <==> Available(u, o) && (tx.IsCoinBase() || o !in tx.vin)
  {
    hide FromTx, SpendAll;
    if !tx.IsCoinBase() {
      if o in tx.vin {
        SpendAllGone(u, tx.vin, o);
      } else {
        SpendAllAvailable(u, tx.vin, o);
      }
    }
  }

  lemma OthersRecord(u: Utxo, tx: Tx, height: int, o: OutPoint, maker: Tx, at: int)
    requires o.hash != tx.txid && Available(u, o) && (tx.IsCoinBase() || o !in tx.vin) && HoldsOutput(u[o.hash], maker, at, o.n)
    ensures Available(ApplyTx(u, tx, height), o) && HoldsOutput(ApplyTx(u, tx, height)[o.hash], maker, at, o.n)
  {
    hide FromTx, SpendAll, HoldsOutput;
    if !tx.IsCoinBase() {
      SpendAllKeepsRecord(u, tx.vin, o, maker, at);
    }
  }

  // --- one block --------------------------------------------------------------------------------------

  /** The rules that make a block's outputs its own. */
  ghost predicate Orderly(u: Utxo, vtx: seq<Tx>, height: int, n: nat)
    requires n <= |vtx|
  {
    BlockShape(vtx) && CollisionFree(vtx) && Bip30(u, vtx) && InputsFound(u, vtx, height, n)
  }

  /** Up to its own transaction nobody had an output, and nobody took it. */
  lemma OwnOutput(u: Utxo, vtx: seq<Tx>, height: int, n: nat, o: OutPoint)
    requires n < |vtx| && Orderly(u, vtx, height, n + 1) && o.hash == vtx[n].txid
    ensures !Available(u, o) && !Taken(vtx, n + 1, o) && forall i :: 0 <= i < n ==> vtx[i].txid != o.hash
  {
    hide BlockShape, CollisionFree, ApplyTxs;
    NoDuplicateTx(u, vtx, height, n + 1);
    forall k | 0 < k < n + 1 && o in vtx[k].vin
      ensures false
    {
      FoundBefore(u, vtx, height, n + 1, k, o);
      var i := NewTxidHasCreator(u, vtx, height, k, o.hash);
    }
  }

  lemma FoundBefore(u: Utxo, vtx: seq<Tx>, height: int, n: nat, k: nat, o: OutPoint)
    requires n <= |vtx| && InputsFound(u, vtx, height, n) && 0 < k < n && o in vtx[k].vin
    ensures o.hash in ApplyTxs(u, vtx[..k], height)
  {
    var j :| 0 <= j < |vtx[k].vin| && vtx[k].vin[j] == o;
    assert Available(ApplyTxs(u, vtx[..k], height), vtx[k].vin[j]);
  }

  lemma ShapeMeans(vtx: seq<Tx>, i: nat)
    requires BlockShape(vtx) && i < |vtx|
    ensures TxWellFormed(vtx[i]) && vtx[i].IsCoinBase() == (i == 0)
  {
  }

  /** After every prefix of a block, an output is there exactly if it was there or was made, and was not taken. */
  lemma {:induction false} PrefixOutputs(u: Utxo, vtx: seq<Tx>, height: int, n: nat, o: OutPoint)
    requires n <= |vtx| && Orderly(u, vtx, height, n)
    ensures Available(ApplyTxs(u, vtx[..n], height), o) <==> (Available(u, o) || Made(vtx, n, o)) && !Taken(vtx, n, o)
    decreases n
  {
    hide *;
    if n == 0 {
      NothingYet(u, vtx, height, o);
    } else {
      var i := n - 1;
      var before := ApplyTxs(u, vtx[..i], height);
      ApplyTxsStep(u, vtx, height, i);
      OrderlyBefore(u, vtx, height, n);
      ShapeMeans(vtx, i);
      if o.hash == vtx[i].txid {
        OwnOutput(u, vtx, height, i, o);
        OwnAvailable(before, vtx[i], height, o);
        OnlyMaker(vtx, i, o);
      } else {
        PrefixOutputs(u, vtx, height, i, o);
        OthersOutput(before, vtx[i], height, o);
        NotMaker(vtx, i, o);
        TakenStep(vtx, i, o);
      }
    }
  }

  lemma NothingYet(u: Utxo, vtx: seq<Tx>, height: int, o: OutPoint)
    ensures ApplyTxs(u, vtx[..0], height) == u && !Made(vtx, 0, o) && !Taken(vtx, 0, o)
  {
  }

  lemma OrderlyBefore(u: Utxo, vtx: seq<Tx>, height: int, n: nat)
    requires 0 < n <= |vtx| && Orderly(u, vtx, height, n)
    ensures Orderly(u, vtx, height, n - 1) && BlockShape(vtx)
  {
    hide BlockShape, CollisionFree, Bip30, HaveInputs, ApplyTxs;
  }

  lemma TakenStep(vtx: seq<Tx>, i: nat, o: OutPoint)
    requires i < |vtx|
    ensures Taken(vtx, i + 1, o) <==> Taken(vtx, i, o) || (i > 0 && o in vtx[i].vin)
  {
    if Taken(vtx, i, o) {
      var k :| 0 < k < i && o in vtx[k].vin;
      assert 0 < k < i + 1 && o in vtx[k].vin;
    }
  }

  lemma OwnAvailable(u: Utxo, tx: Tx, height: int, o: OutPoint)
    requires TxWellFormed(tx) && o.hash == tx.txid
    ensures Available(ApplyTx(u, tx, height), o) <==> Makes(tx, o)
    ensures Makes(tx, o) ==> HoldsOutput(ApplyTx(u, tx, height)[o.hash], tx, height, o.n)
  {
    hide FromTx, Makes, HoldsOutput, SpendAll;
    FreshRecord(tx, height, o);
  }

  lemma OnlyMaker(vtx: seq<Tx>, i: nat, o: OutPoint)
    requires i < |vtx| && forall j :: 0 <= j < i ==> vtx[j].txid != o.hash
    ensures Made(vtx, i + 1, o) <==> Makes(vtx[i], o)
  {
  }

  lemma NotMaker(vtx: seq<Tx>, i: nat, o: OutPoint)
    requires i < |vtx| && vtx[i].txid != o.hash
    ensures Made(vtx, i + 1, o) <==> Made(vtx, i, o)
  {
    if Made(vtx, i, o) {
      var j :| 0 <= j < i && Makes(vtx[j], o);
      assert 0 <= j < i + 1 && Makes(vtx[j], o);
    }
  }

  /** And while it is there, its record holds it as it was made. */
  lemma {:induction false} PrefixRecord(u: Utxo, vtx: seq<Tx>, height: int, n: nat, i: nat, o: OutPoint)
    requires i < n <= |vtx| && Orderly(u, vtx, height, n) && Makes(vtx[i], o) && Available(ApplyTxs(u, vtx[..n], height), o)
    ensures HoldsOutput(ApplyTxs(u, vtx[..n], height)[o.hash], vtx[i], height, o.n) && vtx[i].IsCoinBase() == (i == 0)
    decreases n
  {
    hide BlockShape, CollisionFree, Bip30, HaveInputs, ApplyTxs, ApplyTx, HoldsOutput;
    var k := n - 1;
    var before := ApplyTxs(u, vtx[..k], height);
    ApplyTxsStep(u, vtx, height, k);
    ShapeMeans(vtx, i);
    ShapeMeans(vtx, k);
    NoDuplicateTx(u, vtx, height, n);
    if i == k {
      OwnAvailable(before, vtx[k], height, o);
    } else {
      OthersOutput(before, vtx[k], height, o);
      PrefixRecord(u, vtx, height, k, i, o);
      OthersRecord(before, vtx[k], height, o, vtx[i], height);
    }
  }

  /** What an accepted block does to the coins: an output is there afterwards exactly if it was there or the block made
      it, and the block did not take it; a new one is recorded as it was made, with height, coinbase mark and version. */
  lemma BlockOutputs(u: Utxo, vtx: seq<Tx>, height: int, grant: int, o: OutPoint)
    requires RulesHold(u, vtx, height, grant) && CollisionFree(vtx)
    ensures Available(ApplyTxs(u, vtx, height), o) <==> (Available(u, o) || Made(vtx, |vtx|, o)) && !Taken(vtx, |vtx|, o)
    ensures forall i :: 0 <= i < |vtx| && Makes(vtx[i], o) && Available(ApplyTxs(u, vtx, height), o) ==>
              HoldsOutput(ApplyTxs(u, vtx, height)[o.hash], vtx[i], height, o.n) && vtx[i].IsCoinBase() == (i == 0)
  {
    hide BlockShape, Bip30, CollisionFree, ApplyTxs, InputsAccepted, HoldsOutput, Makes;
    AcceptedFound(u, vtx, height, |vtx|);
    assert vtx[..|vtx|] == vtx;
    PrefixOutputs(u, vtx, height, |vtx|, o);
    forall i | 0 <= i < |vtx| && Makes(vtx[i], o) && Available(ApplyTxs(u, vtx, height), o)
      ensures HoldsOutput(ApplyTxs(u, vtx, height)[o.hash], vtx[i], height, o.n) && vtx[i].IsCoinBase() == (i == 0)
    {
      PrefixRecord(u, vtx, height, |vtx|, i, o);
    }
  }

  // --- the whole chain --------------------------------------------------------------------------------

  predicate MadeIn(block: Block, o: OutPoint) { Made(block.vtx, |block.vtx|, o) }

  predicate TakenIn(block: Block, o: OutPoint) { Taken(block.vtx, |block.vtx|, o) }

  /** No block from the i-th on takes an output. */
  predicate KeptSince(bs: seq<Block>, i: nat, o: OutPoint) { forall k :: i <= k < |bs| ==> !TakenIn(bs[k], o) }

  /** Some block made an output, and neither it nor a later one took it. */
  predicate Unspent(bs: seq<Block>, o: OutPoint) { exists i :: 0 <= i < |bs| && MadeIn(bs[i], o) && KeptSince(bs, i, o) }

  lemma KeptStep(bs: seq<Block>, block: Block, i: nat, o: OutPoint)
    requires i <= |bs|
    ensures KeptSince(bs + [block], i, o) <==> KeptSince(bs, i, o) && !TakenIn(block, o)
  {
    var more := bs + [block];
    if KeptSince(more, i, o) {
      assert !TakenIn(more[|bs|], o);
      assert forall k :: i <= k < |bs| ==> more[k] == bs[k];
    }
  }

  lemma UnspentStep(bs: seq<Block>, block: Block, o: OutPoint)
    ensures Unspent(bs + [block], o) <==> (Unspent(bs, o) || MadeIn(block, o)) && !TakenIn(block, o)
  {
    hide MadeIn, TakenIn, KeptSince;
    var more := bs + [block];
    if Unspent(more, o) {
      var i :| 0 <= i < |more| && MadeIn(more[i], o) && KeptSince(more, i, o);
      KeptStep(bs, block, i, o);
      assert i < |bs| ==> more[i] == bs[i];
    }
    if Unspent(bs, o) && !TakenIn(block, o) {
      var i :| 0 <= i < |bs| && MadeIn(bs[i], o) && KeptSince(bs, i, o);
      KeptStep(bs, block, i, o);
      assert more[i] == bs[i];
    }
    if MadeIn(block, o) && !TakenIn(block, o) {
      KeptStep(bs, block, |bs|, o);
      NoneSince(bs, o);
      assert more[|bs|] == block;
    }
  }

  lemma NoneSince(bs: seq<Block>, o: OutPoint)
    ensures KeptSince(bs, |bs|, o)
  {
  }

  /** On every chain that obeys the rules, an output is unspent in the naive replay exactly if some block made it and
      neither that block nor a later one took it. */
  lemma {:induction false} ChainOutputs(bs: seq<Block>, params: ChainState.Params, o: OutPoint)
    requires ChainState.Obeys(bs, params)
    ensures Available(ChainState.Fold(bs), o) <==> Unspent(bs, o)
    decreases |bs|
  {
    hide RulesHold, ApplyTxs, CollisionFree, Undoable, Unspent;
    if bs == [] {
      NothingUnspent(o);
    } else {
      var init, last := bs[..|bs| - 1], bs[|bs| - 1];
      assert init + [last] == bs;
      ChainOutputs(init, params, o);
      BlockOutputs(ChainState.Fold(init), last.vtx, |init|, ChainState.NextGrant(init, params), o);
      UnspentStep(init, last, o);
    }
  }

  lemma NothingUnspent(o: OutPoint)
    ensures !Unspent([], o) && !Available(map[], o)
  {
  }

  /** Its record is then that of the transaction that made it, at the height of its block. */
  lemma {:induction false} ChainRecord(bs: seq<Block>, params: ChainState.Params, o: OutPoint, i: nat, j: nat)
    requires ChainState.Obeys(bs, params) && i < |bs| && j < |bs[i].vtx| && Makes(bs[i].vtx[j], o) && KeptSince(bs, i, o)
    ensures Available(ChainState.Fold(bs), o) && HoldsOutput(ChainState.Fold(bs)[o.hash], bs[i].vtx[j], i, o.n)
    ensures bs[i].vtx[j].IsCoinBase() == (j == 0)
    decreases |bs|
  {
    hide RulesHold, ApplyTxs, CollisionFree, Undoable, Unspent, HoldsOutput, Makes, KeptSince;
    var init, last := bs[..|bs| - 1], bs[|bs| - 1];
    var u, h := ChainState.Fold(init), |init|;
    assert init + [last] == bs;
    KeptStep(init, last, i, o);
    MadeBy(bs[i], j, o);
    BlockOutputs(u, last.vtx, h, ChainState.NextGrant(init, params), o);
    if i < h {
      ChainRecord(init, params, o, i, j);
      StaysRecorded(u, last.vtx, h, ChainState.NextGrant(init, params), o, bs[i].vtx[j], i);
    }
  }

  lemma MadeBy(block: Block, j: nat, o: OutPoint)
    requires j < |block.vtx| && Makes(block.vtx[j], o)
    ensures MadeIn(block, o)
  {
  }

  /** A block that does not take an output leaves its record as it was, but for other outputs. */
  lemma StaysRecorded(u: Utxo, vtx: seq<Tx>, height: int, grant: int, o: OutPoint, maker: Tx, at: int)
    requires RulesHold(u, vtx, height, grant) && CollisionFree(vtx) && Available(u, o) && !Taken(vtx, |vtx|, o)
    requires HoldsOutput(u[o.hash], maker, at, o.n)
    ensures Available(ApplyTxs(u, vtx, height), o) && HoldsOutput(ApplyTxs(u, vtx, height)[o.hash], maker, at, o.n)
  {
    hide Bip30, CollisionFree, ApplyTxs, InputsAccepted, HoldsOutput;
    assert vtx[..|vtx|] == vtx;
    NotOverwritten(u, vtx, o);
    PrefixStays(u, vtx, height, |vtx|, o, maker, at);
  }

  lemma NotOverwritten(u: Utxo, vtx: seq<Tx>, o: OutPoint)
    requires Bip30(u, vtx) && Available(u, o)
    ensures forall i :: 0 <= i < |vtx| ==> vtx[i].txid != o.hash
  {
  }

  lemma {:induction false} PrefixStays(u: Utxo, vtx: seq<Tx>, height: int, n: nat, o: OutPoint, maker: Tx, at: int)
    requires n <= |vtx| && BlockShape(vtx) && Available(u, o) && !Taken(vtx, n, o) && HoldsOutput(u[o.hash], maker, at, o.n)
    requires forall i :: 0 <= i < |vtx| ==> vtx[i].txid != o.hash
    ensures var r := ApplyTxs(u, vtx[..n], height); Available(r, o) && HoldsOutput(r[o.hash], maker, at, o.n)
    decreases n
  {
    hide ApplyTxs, ApplyTx, HoldsOutput, Available, Taken, BlockShape;
    if n == 0 {
      NothingYet(u, vtx, height, o);
    } else {
      var i := n - 1;
      TakenStep(vtx, i, o);
      ShapeMeans(vtx, i);
      PrefixStays(u, vtx, height, i, o, maker, at);
      ApplyTxsStep(u, vtx, height, i);
      OthersRecord(ApplyTxs(u, vtx[..i], height), vtx[i], height, o, maker, at);
    }
  }

  /** No transaction hash occurs in two blocks. */
  predicate HashesOnce(bs: seq<Block>) {
    forall i, k, j, l :: 0 <= i < k < |bs| && 0 <= j < |bs[i].vtx| && 0 <= l < |bs[k].vtx| ==> bs[i].vtx[j].txid != bs[k].vtx[l].txid
  }

  lemma {:induction false} ObeysBefore(bs: seq<Block>, params: ChainState.Params, n: nat)
    requires ChainState.Obeys(bs, params) && n <= |bs|
    ensures ChainState.Obeys(bs[..n], params)
    decreases |bs|
  {
    hide RulesHold, ChainState.Fits, ChainState.Fold;
    if n == |bs| {
      assert bs[..n] == bs;
    } else {
      var init := bs[..|bs| - 1];
      assert init[..n] == bs[..n];
      ObeysBefore(init, params, n);
    }
  }

  /** A block of an obeying chain obeys the rules on the coins before it. */
  lemma BlockObeys(bs: seq<Block>, params: ChainState.Params, k: nat)
    requires ChainState.Obeys(bs, params) && k < |bs|
    ensures ChainState.Obeys(bs[..k], params) && CollisionFree(bs[k].vtx)
    ensures RulesHold(ChainState.Fold(bs[..k]), bs[k].vtx, k, ChainState.NextGrant(bs[..k], params))
  {
    hide RulesHold, CollisionFree, ChainState.Fold;
    ObeysBefore(bs, params, k + 1);
    assert bs[..k + 1] == bs[..k] + [bs[k]];
    ChainState.ObeysStep(bs[..k], params, bs[k]);
  }

  /** What a block takes was made by it or by one before, and not taken since. */
  lemma TakenWasMade(bs: seq<Block>, params: ChainState.Params, k: nat, o: OutPoint) returns (i: nat)
    requires ChainState.Obeys(bs, params) && k < |bs| && TakenIn(bs[k], o)
    ensures i <= k && MadeIn(bs[i], o) && KeptSince(bs[..k], i, o)
  {
    hide RulesHold, ApplyTxs, Makes, ChainState.Obeys, ChainState.Fold, InputsAccepted, Available, CollisionFree;
    BlockObeys(bs, params, k);
    var before, vtx := bs[..k], bs[k].vtx;
    var m :| 0 < m < |vtx| && o in vtx[m].vin;
    WasThere(ChainState.Fold(before), vtx, k, ChainState.NextGrant(before, params), m, o);
    if Made(vtx, m, o) {
      var j :| 0 <= j < m && Makes(vtx[j], o);
      MadeBy(bs[k], j, o);
      i := k;
    } else {
      ChainOutputs(before, params, o);
      i :| 0 <= i < |before| && MadeIn(before[i], o) && KeptSince(before, i, o);
    }
  }

  lemma WasThere(u: Utxo, vtx: seq<Tx>, height: int, grant: int, m: nat, o: OutPoint)
    requires RulesHold(u, vtx, height, grant) && CollisionFree(vtx) && 0 < m < |vtx| && o in vtx[m].vin
    ensures Available(ApplyTxs(u, vtx[..m], height), o) && Orderly(u, vtx, height, m)
    ensures (Available(u, o) || Made(vtx, m, o)) && !Taken(vtx, m, o)
  {
    hide BlockShape, CollisionFree, Bip30, ApplyTxs, InputsAccepted, Makes, Available;
    AcceptedFound(u, vtx, height, |vtx|);
    var j :| 0 <= j < |vtx[m].vin| && vtx[m].vin[j] == o;
    assert Available(ApplyTxs(u, vtx[..m], height), vtx[m].vin[j]);
    PrefixOutputs(u, vtx, height, m, o);
  }

  /** No two transactions of an accepted block take the same output. */
  lemma OncePerBlock(u: Utxo, vtx: seq<Tx>, height: int, grant: int, k: nat, m: nat, o: OutPoint)
    requires RulesHold(u, vtx, height, grant) && CollisionFree(vtx) && 0 < k < m < |vtx| && o in vtx[k].vin
    ensures o !in vtx[m].vin
  {
    hide RulesHold, CollisionFree, ApplyTxs, Available, Orderly, Made;
    if o in vtx[m].vin {
      WasThere(u, vtx, height, grant, m, o);
    }
  }

  /** An output that two blocks of a chain take was made again after the first of them. */
  lemma TakenTwiceMadeTwice(bs: seq<Block>, params: ChainState.Params, k: nat, m: nat, o: OutPoint) returns (i: nat)
    requires ChainState.Obeys(bs, params) && k < m < |bs| && TakenIn(bs[k], o) && TakenIn(bs[m], o)
    ensures k < i <= m && MadeIn(bs[i], o)
  {
    hide ChainState.Obeys, TakenIn, MadeIn;
    i := TakenWasMade(bs, params, m, o);
    assert bs[..m][k] == bs[k];
  }

  /** So, if no transaction hash comes twice, no output is ever taken twice. */
  lemma NoDoubleSpend(bs: seq<Block>, params: ChainState.Params, k: nat, m: nat, o: OutPoint)
    requires ChainState.Obeys(bs, params) && HashesOnce(bs) && k < m < |bs| && TakenIn(bs[k], o)
    ensures !TakenIn(bs[m], o)
  {
    hide ChainState.Obeys, TakenIn, MadeIn, HashesOnce;
    if TakenIn(bs[m], o) {
      var i := TakenWasMade(bs, params, k, o);
      var again := TakenTwiceMadeTwice(bs, params, k, m, o);
      MadeOnce(bs, i, again, o);
    }
  }

  /** A coinbase output is not taken before a hundred blocks have passed. */
  lemma CoinbaseMatures(bs: seq<Block>, params: ChainState.Params, i: nat, k: nat, o: OutPoint)
    requires ChainState.Obeys(bs, params) && i <= k < |bs| && TakenIn(bs[k], o) && KeptSince(bs[..k], i, o)
    requires bs[i].vtx != [] && Makes(bs[i].vtx[0], o)
    ensures k - i >= 100
  {
    hide RulesHold, ApplyTxs, Makes, ChainState.Obeys, ChainState.Fold, InputsAccepted, Available, CollisionFree, HoldsOutput, KeptSince;
    BlockObeys(bs, params, k);
    var u, vtx, grant := ChainState.Fold(bs[..k]), bs[k].vtx, ChainState.NextGrant(bs[..k], params);
    var m :| 0 < m < |vtx| && o in vtx[m].vin;
    WasThere(u, vtx, k, grant, m, o);
    if i < k {
      ChainRecord(bs[..k], params, o, i, 0);
      StillRecorded(u, vtx, k, grant, m, o, bs[i].vtx[0], i);
    } else {
      PrefixRecord(u, vtx, k, m, 0, o);
    }
    TakenMature(u, vtx, k, grant, m, o, bs[i].vtx[0], i);
  }

  lemma StillRecorded(u: Utxo, vtx: seq<Tx>, height: int, grant: int, m: nat, o: OutPoint, maker: Tx, at: int)
    requires RulesHold(u, vtx, height, grant) && m <= |vtx| && Available(u, o) && !Taken(vtx, m, o) && HoldsOutput(u[o.hash], maker, at, o.n)
    ensures var r := ApplyTxs(u, vtx[..m], height); Available(r, o) && HoldsOutput(r[o.hash], maker, at, o.n)
  {
    hide BlockShape, Bip30, ApplyTxs, InputsAccepted, HoldsOutput, Available;
    NotOverwritten(u, vtx, o);
    PrefixStays(u, vtx, height, m, o, maker, at);
  }

  lemma TakenMature(u: Utxo, vtx: seq<Tx>, height: int, grant: int, m: nat, o: OutPoint, maker: Tx, at: int)
    requires RulesHold(u, vtx, height, grant) && 0 < m < |vtx| && o in vtx[m].vin
    requires var r := ApplyTxs(u, vtx[..m], height); Available(r, o) && HoldsOutput(r[o.hash], maker, at, o.n)
    requires maker.IsCoinBase()
    ensures height - at >= 100
  {
    hide BlockShape, Bip30, ApplyTxs;
    var r := ApplyTxs(u, vtx[..m], height);
    assert InputsAccepted(r, vtx[m], height);
    var j :| 0 <= j < |vtx[m].vin| && vtx[m].vin[j] == o;
    assert InputInRange(r, vtx[m].vin, height, j);
  }

  /** If no transaction hash comes twice, an output is unspent exactly if a block of the chain made it and none took it. */
  lemma NeverTaken(bs: seq<Block>, params: ChainState.Params, o: OutPoint)
    requires ChainState.Obeys(bs, params) && HashesOnce(bs)
    ensures Available(ChainState.Fold(bs), o) <==>
              (exists i :: 0 <= i < |bs| && MadeIn(bs[i], o)) && forall k :: 0 <= k < |bs| ==> !TakenIn(bs[k], o)
  {
    hide ChainState.Obeys, ChainState.Fold, Available, TakenIn;
    ChainOutputs(bs, params, o);
    if Unspent(bs, o) {
      var i: nat :| i < |bs| && MadeIn(bs[i], o) && KeptSince(bs, i, o);
      forall k | 0 <= k < |bs|
        ensures !TakenIn(bs[k], o)
      {
        if k < i && TakenIn(bs[k], o) {
          var m := TakenWasMade(bs, params, k, o);
          MadeOnce(bs, m, i, o);
        }
      }
    }
  }

  lemma MadeOnce(bs: seq<Block>, i: nat, k: nat, o: OutPoint)
    requires HashesOnce(bs) && i < |bs| && k < |bs| && MadeIn(bs[i], o) && MadeIn(bs[k], o)
    ensures i == k
  {
  }

  /** What the coins of a node are, in every reachable state: the outputs made on the active chain and not taken since. */
  lemma CoinsAreUnspent(state: ChainState.ChainStateManager, o: OutPoint)
    requires state.Valid() && state.chainActive.Tip() != null
    ensures ChainState.Stored(state.chainActive.Tip(), state.blocks) && state.coinsTip.Layered()
    ensures Available(state.coinsTip.View(), o) <==> Unspent(ChainState.BlockList(state.chainActive.Tip(), state.blocks), o)
  {
    hide Unspent, CoinsViewCache.Valid, CoinsViewCache.View, CoinsViewCache.Best, RulesHold;
    var tip := state.chainActive.Tip();
    ChainState.ConnectedObeys(tip, state.blocks, state.params);
    ChainState.ReplayIsFold(tip, state.blocks);
    ChainOutputs(ChainState.BlockList(tip, state.blocks), state.params, o);
  }

  // --- taking a transaction's outputs away --------------------------------------------------------------

  /** A record holds just what a transaction made, but for outputs that cannot be spent. */
  ghost predicate JustMade(c: Coins, tx: Tx, height: int) {
    && (forall n: nat :: Makes(tx, OutPoint(tx.txid, n)) <==> c.IsAvailable(n) && !DataScript(c.vout[n].script))
    && (forall n: nat :: Makes(tx, OutPoint(tx.txid, n)) ==> c.vout[n] == tx.vout[n])
    && ((exists n: nat :: Makes(tx, OutPoint(tx.txid, n))) ==>
          c.height == height && c.coinBase == tx.IsCoinBase() && (tx.version >= 0 ==> c.version == tx.version))
  }

  predicate DataScript(s: Script) { s != [] && s[0] == 0x6a }

  /** Spent outputs are the null output, and there are none at the end. */
  predicate Tidy(vout: seq<TxOut>) {
    && (|vout| > 0 ==> !vout[|vout| - 1].IsNull())
    && forall i :: 0 <= i < |vout| && vout[i].IsNull() ==> vout[i] == NullTxOut
  }

  /** Tidy lists with the same unspent outputs are the same. */
  lemma TidyEqual(a: seq<TxOut>, b: seq<TxOut>)
    requires Tidy(a) && Tidy(b)
    requires forall n: nat :: (n < |a| && !a[n].IsNull()) <==> (n < |b| && !b[n].IsNull())
    requires forall n: nat :: n < |a| && n < |b| && !a[n].IsNull() ==> a[n] == b[n]
    ensures a == b
  {
    if |a| > 0 {
      assert !a[|a| - 1].IsNull();
    }
    if |b| > 0 {
      assert !b[|b| - 1].IsNull();
    }
    forall i | 0 <= i < |a|
      ensures a[i] == b[i]
    {
    }
  }

  /** What is left when outputs that cannot be spent are dropped. */
  lemma Dropped(c: Coins)
    requires forall i :: 0 <= i < |c.vout| && c.vout[i].IsNull() ==> c.vout[i] == NullTxOut
    ensures var d := c.ClearUnspendable();
            && Tidy(d.vout) && d == c.(vout := d.vout)
            && (forall n: nat :: d.IsAvailable(n) <==> c.IsAvailable(n) && !DataScript(c.vout[n].script))
            && (forall n: nat :: d.IsAvailable(n) ==> d.vout[n] == c.vout[n])
  {
    var w := c.(vout := WithoutUnspendable(c.vout));
    assert forall n: nat :: w.Cleanup().IsAvailable(n) == w.IsAvailable(n);
    assert w.Cleanup().vout <= w.vout;
  }

  lemma RecordNulls(u: Utxo, t: Txid)
    requires AllRestorable(u)
    ensures var c := CoinsCache.Lookup(u, t); forall i :: 0 <= i < |c.vout| && c.vout[i].IsNull() ==> c.vout[i] == NullTxOut
  {
    if t in u {
      assert Restorable(u[t]);
    }
  }

  /** The comparison that disconnecting makes. */
  lemma SameIff(c: Coins, tx: Tx, height: int)
    requires TxWellFormed(tx) && forall i :: 0 <= i < |c.vout| && c.vout[i].IsNull() ==> c.vout[i] == NullTxOut
    ensures var outs, block := c.ClearUnspendable(), FromTx(tx, height);
            (if block.version < 0 then outs.(version := block.version) else outs).SameAs(block) <==> JustMade(c, tx, height)
  {
    Dropped(c);
    Dropped(Coins(tx.IsCoinBase(), tx.vout, height, tx.version));
    var outs, block := c.ClearUnspendable(), FromTx(tx, height);
    assert forall n: nat :: Makes(tx, OutPoint(tx.txid, n)) <==> block.IsAvailable(n);
    SameTidy(c, outs, block, tx, height);
  }

  lemma SameTidy(c: Coins, outs: Coins, block: Coins, tx: Tx, height: int)
    requires Tidy(outs.vout) && Tidy(block.vout) && outs == c.(vout := outs.vout)
    requires block == Coins(tx.IsCoinBase(), block.vout, height, tx.version)
    requires forall n: nat :: outs.IsAvailable(n) <==> c.IsAvailable(n) && !DataScript(c.vout[n].script)
    requires forall n: nat :: outs.IsAvailable(n) && n < |c.vout| ==> outs.vout[n] == c.vout[n]
    requires forall n: nat :: Makes(tx, OutPoint(tx.txid, n)) <==> block.IsAvailable(n)
    requires forall n: nat :: block.IsAvailable(n) ==> n < |tx.vout| && block.vout[n] == tx.vout[n]
    ensures (if block.version < 0 then outs.(version := block.version) else outs).SameAs(block) <==> JustMade(c, tx, height)
  {
    hide Makes, DataScript;
    var patched := if block.version < 0 then outs.(version := block.version) else outs;
    if JustMade(c, tx, height) {
      TidyEqual(outs.vout, block.vout);
      if !block.IsPruned() {
        var n: nat :| n < |block.vout| && !block.vout[n].IsNull();
        assert Makes(tx, OutPoint(tx.txid, n));
      }
    }
    if patched.SameAs(block) {
      TidyPruned(outs);
      TidyPruned(block);
      assert outs.vout == block.vout;
      if exists n: nat :: Makes(tx, OutPoint(tx.txid, n)) {
        var n: nat :| Makes(tx, OutPoint(tx.txid, n));
        assert block.IsAvailable(n);
      }
    }
  }

  lemma TidyPruned(c: Coins)
    requires Tidy(c.vout)
    ensures c.IsPruned() <==> c.vout == []
  {
    if c.vout != [] {
      assert !c.vout[|c.vout| - 1].IsNull();
    }
  }

  /** Disconnecting finds a transaction's outputs clean exactly if its record holds just what it made, and leaves nothing
      of it and everything else. A negative version is not compared. */
  lemma RemovedIff(u: Utxo, tx: Tx, height: int)
    requires TxWellFormed(tx) && AllRestorable(u)
    ensures RemoveTx(u, tx, height).Some? <==> JustMade(CoinsCache.Lookup(u, tx.txid), tx, height)
    ensures RemoveTx(u, tx, height).Some? ==> RemoveTx(u, tx, height).value == u - {tx.txid}
  {
    hide JustMade, TxWellFormed, FromTx, WithoutUnspendable, Trimmed, AllRestorable;
    RecordNulls(u, tx.txid);
    SameIff(CoinsCache.Lookup(u, tx.txid), tx, height);
  }
}
