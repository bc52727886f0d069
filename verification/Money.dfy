/** The value held by the set of unspent coins, and how blocks change it. */
module Money {
  import opened Basics
  import opened Coins
  import opened CoinsCache
  import opened BlockEffects
  import opened Sums

  /** What one output still holds. */
  function Held(out: TxOut): int { if out.IsNull() then 0 else out.value }

  function UnspentValue(vout: seq<TxOut>): (v: int) {
    if vout == [] then 0 else UnspentValue(vout[..|vout| - 1]) + Held(vout[|vout| - 1])
  }

  ghost function ValueMap(u: Utxo): map<Txid, int> { map t | t in u :: UnspentValue(u[t].vout) }

  /** All the money there is. */
  ghost function Total(u: Utxo): int { Sum(ValueMap(u)) }

  lemma {:induction false} UnspentUpdate(vout: seq<TxOut>, n: nat, out: TxOut)
    requires n < |vout|
    ensures UnspentValue(vout[n := out]) == UnspentValue(vout) - Held(vout[n]) + Held(out)
    decreases |vout|
  {
    var k := |vout| - 1;
    if n == k {
      assert vout[n := out][..k] == vout[..k];
    } else {
      assert vout[n := out][..k] == vout[..k][n := out];
      UnspentUpdate(vout[..k], n, out);
    }
  }

  lemma {:induction false} UnspentTrimmed(vout: seq<TxOut>)
    ensures UnspentValue(Trimmed(vout)) == UnspentValue(vout)
  {
    if |vout| > 0 && vout[|vout| - 1].IsNull() {
      UnspentTrimmed(vout[..|vout| - 1]);
    }
  }

  lemma {:induction false} UnspentPruned(vout: seq<TxOut>)
    requires forall i :: 0 <= i < |vout| ==> vout[i].IsNull()
    ensures UnspentValue(vout) == 0
  {
    if vout != [] {
      UnspentPruned(vout[..|vout| - 1]);
    }
  }

  lemma {:induction false} UnspentNonNegative(vout: seq<TxOut>)
    requires forall i :: 0 <= i < |vout| ==> vout[i].IsNull() || vout[i].value >= 0
    ensures UnspentValue(vout) >= 0
  {
    if vout != [] {
      UnspentNonNegative(vout[..|vout| - 1]);
    }
  }

  /** Dropping unspendable outputs can only lose value. */
  lemma {:induction false} UnspentSpendable(vout: seq<TxOut>)
    requires forall i :: 0 <= i < |vout| ==> vout[i].value >= 0
    ensures 0 <= UnspentValue(WithoutUnspendable(vout)) <= ValueOut(vout)
  {
    if vout != [] {
      var k := |vout| - 1;
      UnspentSpendable(vout[..k]);
      assert WithoutUnspendable(vout)[..k] == WithoutUnspendable(vout[..k]);
    }
  }

  lemma FromTxValue(tx: Tx, height: int)
    requires forall i :: 0 <= i < |tx.vout| ==> tx.vout[i].value >= 0
    ensures 0 <= UnspentValue(FromTx(tx, height).vout) <= ValueOut(tx.vout)
  {
    UnspentSpendable(tx.vout);
    UnspentTrimmed(WithoutUnspendable(tx.vout));
  }

  lemma PutTotal(u: Utxo, t: Txid, c: Coins)
    ensures Total(Put(u, t, c)) == Total(u) - UnspentValue(Lookup(u, t).vout) + UnspentValue(c.vout)
  {
    if c.IsPruned() {
      UnspentPruned(c.vout);
      if t in u {
        SumRemove(ValueMap(u), t);
        assert ValueMap(u - {t}) == ValueMap(u) - {t};
      } else {
        assert u - {t} == u;
      }
    } else {
      SumUpdate(ValueMap(u), t, UnspentValue(c.vout));
      assert ValueMap(u[t := c]) == ValueMap(u)[t := UnspentValue(c.vout)];
    }
  }

  lemma TotalNonNegative(u: Utxo)
    requires AllRestorable(u)
    ensures Total(u) >= 0
  {
    forall t | t in u
      ensures ValueMap(u)[t] >= 0
    {
      UnspentNonNegative(u[t].vout);
    }
    SumNonNegative(ValueMap(u));
  }

  // --- inputs ------------------------------------------------------------------------

  function InputValue(u: Utxo, o: OutPoint): int { if Available(u, o) then u[o.hash].vout[o.n].value else 0 }

  function ValueIn(u: Utxo, outs: seq<OutPoint>): (v: int) {
    if outs == [] then 0 else ValueIn(u, outs[..|outs| - 1]) + InputValue(u, outs[|outs| - 1])
  }

  lemma SpendOneTotal(u: Utxo, o: OutPoint)
    requires Available(u, o)
    ensures Total(SpendOne(u, o)) == Total(u) - InputValue(u, o)
  {
    var c := u[o.hash];
    UnspentUpdate(c.vout, o.n, NullTxOut);
    UnspentTrimmed(c.vout[o.n := NullTxOut]);
    PutTotal(u, o.hash, c.Spend(o.n).1);
  }

  /** Distinct inputs take exactly their value out. */
  lemma {:induction false} SpendAllTotal(u: Utxo, outs: seq<OutPoint>)
    requires HaveInputs(u, outs) && Distinct(outs)
    ensures Total(SpendAll(u, outs)) == Total(u) - ValueIn(u, outs)
    decreases |outs|
  {
    if outs != [] {
      var k := |outs| - 1;
      SpendAllTotal(u, outs[..k]);
      NextInputAvailable(u, outs, k);
      SpendOneTotal(SpendAll(u, outs[..k]), outs[k]);
    }
  }

  lemma {:induction false} ValueInNonNegative(u: Utxo, outs: seq<OutPoint>)
    requires AllRestorable(u)
    ensures ValueIn(u, outs) >= 0
  {
    if outs != [] {
      ValueInNonNegative(u, outs[..|outs| - 1]);
    }
  }

  /** No prefix of a transaction's inputs is worth more than all the money there is. */
  lemma ValueInBounded(u: Utxo, outs: seq<OutPoint>, k: nat)
    requires AllRestorable(u) && HaveInputs(u, outs) && Distinct(outs) && k <= |outs|
    ensures 0 <= ValueIn(u, outs[..k]) <= Total(u)
  {
    SpendAllTotal(u, outs[..k]);
    SpendAllRestorable(u, outs[..k]);
    TotalNonNegative(SpendAll(u, outs[..k]));
    ValueInNonNegative(u, outs[..k]);
  }

  // --- blocks ------------------------------------------------------------------------

  /** The fees of all transactions but the first. */
  function Fees(u: Utxo, vtx: seq<Tx>, height: int): (v: int) {
    if |vtx| <= 1 then 0
    else
      var init, last := vtx[..|vtx| - 1], vtx[|vtx| - 1];
      Fees(u, init, height) + ValueIn(ApplyTxs(u, init, height), last.vin) - ValueOut(last.vout)
  }

  lemma ApplyTxTotal(u: Utxo, tx: Tx, height: int)
    requires TxWellFormed(tx) && (tx.IsCoinBase() || HaveInputs(u, tx.vin))
    requires tx.txid !in SpendTx(u, tx)
    ensures Total(ApplyTx(u, tx, height))
         <= Total(u) + ValueOut(tx.vout) - (if tx.IsCoinBase() then 0 else ValueIn(u, tx.vin))
  {
    FromTxValue(tx, height);
    PutTotal(SpendTx(u, tx), tx.txid, FromTx(tx, height));
    if !tx.IsCoinBase() {
      SpendAllTotal(u, tx.vin);
    }
  }

  lemma FeesStep(u: Utxo, vtx: seq<Tx>, height: int, i: nat)
    requires i < |vtx|
    ensures Fees(u, vtx[..i + 1], height) == Fees(u, vtx[..i], height)
         + if i == 0 then 0 else ValueIn(ApplyTxs(u, vtx[..i], height), vtx[i].vin) - ValueOut(vtx[i].vout)
  {
    hide ApplyTxs, ValueIn, ValueOut;
    assert vtx[..i + 1][..i] == vtx[..i];
  }

  /** After any number of a block's transactions the money has grown by no more than what the
      coinbase claims minus the fees collected so far. */
  lemma {:induction false} PrefixTotal(u: Utxo, vtx: seq<Tx>, height: int, n: nat)
    requires 0 < n <= |vtx|
    requires BlockShape(vtx) && CollisionFree(vtx) && Bip30(u, vtx) && InputsFound(u, vtx, height, n)
    ensures Total(ApplyTxs(u, vtx[..n], height)) <= Total(u) + ValueOut(vtx[0].vout) - Fees(u, vtx[..n], height)
    decreases n
  {
    hide CollisionFree, Bip30, ApplyTx, ApplyTxs, HaveInputs, Total, ValueIn, ValueOut, Fees;
    var i := n - 1;
    ApplyTxsStep(u, vtx, height, i);
    FeesStep(u, vtx, height, i);
    OwnRecordEmpty(u, vtx, height, i);
    ApplyTxTotal(ApplyTxs(u, vtx[..i], height), vtx[i], height);
    if i == 0 {
      NothingApplied(u, vtx, height);
    } else {
      PrefixTotal(u, vtx, height, i);
    }
  }

  lemma NothingApplied(u: Utxo, vtx: seq<Tx>, height: int)
    ensures ApplyTxs(u, vtx[..0], height) == u && Fees(u, vtx[..0], height) == 0
  {
  }

  /** A block whose coinbase claims no more than its fees plus a grant creates no more than the
      grant. */
  lemma BlockConserves(u: Utxo, vtx: seq<Tx>, height: int, grant: int)
    requires BlockShape(vtx) && CollisionFree(vtx) && Bip30(u, vtx) && InputsFound(u, vtx, height, |vtx|)
    requires ValueOut(vtx[0].vout) <= Fees(u, vtx, height) + grant
    ensures Total(ApplyTxs(u, vtx, height)) <= Total(u) + grant
  {
    PrefixTotal(u, vtx, height, |vtx|);
    assert vtx[..|vtx|] == vtx;
  }

  /** Fees collected so far never exceed the money at the start plus the coinbase's claim. */
  lemma FeesBounded(u: Utxo, vtx: seq<Tx>, height: int, n: nat)
    requires 0 < n <= |vtx| && AllRestorable(u)
    requires BlockShape(vtx) && CollisionFree(vtx) && Bip30(u, vtx) && InputsFound(u, vtx, height, n)
    requires height >= 1 || forall i :: 0 <= i < |vtx| ==> FromTx(vtx[i], height).IsPruned()
    ensures Fees(u, vtx[..n], height) <= Total(u) + MAX_MONEY
  {
    PrefixTotal(u, vtx, height, n);
    ApplyTxsRestorable(u, vtx[..n], height);
    TotalNonNegative(ApplyTxs(u, vtx[..n], height));
  }
}
