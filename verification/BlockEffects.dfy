/**
 What connecting and disconnecting a block does to the flat set of unspent coins.

 The functions here are the reference that the cached, in-place code is measured against:
 spending inputs, adding outputs, recording undo data, and applying that data backwards.
 */
module BlockEffects {
  import opened Basics
  import opened Coins
  import opened CoinsCache

  /** What is needed to bring one spent output back; a zero height says that other outputs
      of the same transaction are still there. */
  datatype TxInUndo = TxInUndo(txout: TxOut, coinBase: bool, height: int, version: int)

  // --- spending ------------------------------------------------------------------

  predicate Available(u: Utxo, o: OutPoint) { o.hash in u && u[o.hash].IsAvailable(o.n) }

  predicate HaveInputs(u: Utxo, outs: seq<OutPoint>) {
    forall i :: 0 <= i < |outs| ==> Available(u, outs[i])
  }

  function SpendOne(u: Utxo, o: OutPoint): (r: Utxo) {
    if o.hash in u then Put(u, o.hash, u[o.hash].Spend(o.n).1) else u
  }

  function UndoFor(u: Utxo, o: OutPoint): (r: TxInUndo) {
    if !Available(u, o) then TxInUndo(NullTxOut, false, 0, 0)
    else
      var c := u[o.hash];
      if |c.Spend(o.n).1.vout| == 0 then TxInUndo(c.vout[o.n], c.coinBase, c.height, c.version)
      else TxInUndo(c.vout[o.n], false, 0, 0)
  }

  /** Spend a list of outputs, first to last. */
  function SpendAll(u: Utxo, outs: seq<OutPoint>): (r: Utxo) {
    if outs == [] then u else SpendOne(SpendAll(u, outs[..|outs| - 1]), outs[|outs| - 1])
  }

  function UndosFor(u: Utxo, outs: seq<OutPoint>): (r: seq<TxInUndo>)
    ensures |r| == |outs|
  {
    if outs == [] then []
    else
      var init := outs[..|outs| - 1];
      UndosFor(u, init) + [UndoFor(SpendAll(u, init), outs[|outs| - 1])]
  }

  // --- connecting ------------------------------------------------------------------

  function AddTx(u: Utxo, tx: Tx, height: int): (r: Utxo) { Put(u, tx.txid, FromTx(tx, height)) }

  function SpendTx(u: Utxo, tx: Tx): (r: Utxo) { if tx.IsCoinBase() then u else SpendAll(u, tx.vin) }

  function ApplyTx(u: Utxo, tx: Tx, height: int): (r: Utxo) { AddTx(SpendTx(u, tx), tx, height) }

  function ApplyTxs(u: Utxo, vtx: seq<Tx>, height: int): (r: Utxo) {
    if vtx == [] then u else ApplyTx(ApplyTxs(u, vtx[..|vtx| - 1], height), vtx[|vtx| - 1], height)
  }

  /** One undo list for every transaction but the first. */
  function BlockUndoFor(u: Utxo, vtx: seq<Tx>, height: int): (r: seq<seq<TxInUndo>>)
    ensures |r| == if vtx == [] then 0 else |vtx| - 1
  {
    if |vtx| <= 1 then []
    else
      var init := vtx[..|vtx| - 1];
      BlockUndoFor(u, init, height) + [UndosFor(ApplyTxs(u, init, height), vtx[|vtx| - 1].vin)]
  }

  // --- disconnecting ---------------------------------------------------------------

  /** Bring one output back into a record; nothing when the data does not fit the record. */
  function RestoreOutput(c: Coins, undo: TxInUndo, n: nat): (r: Option<Coins>) {
    if undo.height != 0 then
      if !c.IsPruned() then None
      else Some(PutOutput(Coins(undo.coinBase, [], undo.height, undo.version), n, undo.txout))
    else if c.IsPruned() || c.IsAvailable(n) then None
    else Some(PutOutput(c, n, undo.txout))
  }

  /** Write one output, making room with null outputs when needed. */
  function PutOutput(c: Coins, n: nat, out: TxOut): (r: Coins) {
    c.(vout := Padded(c.vout, n + 1)[n := out])
  }

  function Padded(vout: seq<TxOut>, size: nat): (r: seq<TxOut>)
    ensures |r| == if |vout| < size then size else |vout|
    ensures forall i :: 0 <= i < |r| ==> r[i] == if i < |vout| then vout[i] else NullTxOut
  {
    if |vout| < size then vout + seq(size - |vout|, i => NullTxOut) else vout
  }

  function ApplyUndo(u: Utxo, undo: TxInUndo, o: OutPoint): (r: Option<Utxo>) {
    match RestoreOutput(Lookup(u, o.hash), undo, o.n)
    case None => None
    case Some(c) => Some(Put(u, o.hash, c.Cleanup()))
  }

  /** Undo a list of spends, last to first. */
  function UndoAll(u: Utxo, undos: seq<TxInUndo>, outs: seq<OutPoint>): (r: Option<Utxo>)
    requires |undos| == |outs|
    decreases |outs|
  {
    if outs == [] then Some(u)
    else
      match ApplyUndo(u, undos[|outs| - 1], outs[|outs| - 1])
      case None => None
      case Some(v) => UndoAll(v, undos[..|outs| - 1], outs[..|outs| - 1])
  }

  /** Take the outputs of a transaction away; nothing when they are not exactly there. */
  function RemoveTx(u: Utxo, tx: Tx, height: int): (r: Option<Utxo>) {
    var block := FromTx(tx, height);
    var outs := Lookup(u, tx.txid).ClearUnspendable();
    var patched := if block.version < 0 then outs.(version := block.version) else outs;
    if patched.SameAs(block) then Some(Put(u, tx.txid, NoCoins)) else None
  }

  /** Undo a block's transactions, last to first. */
  function UndoTxs(u: Utxo, vtx: seq<Tx>, undos: seq<seq<TxInUndo>>, height: int): (r: Option<Utxo>)
    requires |undos| == if vtx == [] then 0 else |vtx| - 1
    decreases |vtx|
  {
    if vtx == [] then Some(u)
    else
      var n := |vtx| - 1;
      match RemoveTx(u, vtx[n], height)
      case None => None
      case Some(v) =>
        if n == 0 then Some(v)
        else if |undos[n - 1]| != |vtx[n].vin| then None
        else
          match UndoAll(v, undos[n - 1], vtx[n].vin)
          case None => None
          case Some(w) => UndoTxs(w, vtx[..n], undos[..n - 1], height)
  }

  // --- records that undo can bring back --------------------------------------------

  /** Spent outputs are the null output, real ones have a sane value, and the height is not the
      zero that undo data uses as a marker. */
  predicate Restorable(c: Coins) {
    && c.IsClean() && !c.IsPruned()
    && c.height >= 1
    && forall i :: 0 <= i < |c.vout| ==> c.vout[i] == NullTxOut || MoneyRange(c.vout[i].value)
  }

  predicate AllRestorable(u: Utxo) { forall t :: t in u ==> Restorable(u[t]) }

  /** Undoing the spending of one output gives the record back exactly: its trimmed tail, its
      height, its coinbase mark and its version. */
  lemma RestoreSpent(c: Coins, n: nat)
    requires Restorable(c) && c.IsAvailable(n)
    ensures var spent := c.Spend(n).1;
      var undo := if |spent.vout| == 0 then TxInUndo(c.vout[n], c.coinBase, c.height, c.version)
                  else TxInUndo(c.vout[n], false, 0, 0);
      RestoreOutput(spent, undo, n) == Some(c)
  {
    hide Trimmed, Padded;
    var spent := c.Spend(n).1;
    assert spent.vout == Trimmed(c.vout[n := NullTxOut]);
    PaddedBack(c.vout, n);
  }

  /** Padding brings back what trimming took away after one output was spent. */
  lemma PaddedBack(vout: seq<TxOut>, n: nat)
    requires n < |vout| && !vout[|vout| - 1].IsNull()
    requires forall i :: 0 <= i < |vout| ==> vout[i] == NullTxOut || !vout[i].IsNull()
    ensures Padded(Trimmed(vout[n := NullTxOut]), n + 1)[n := vout[n]] == vout
  {
    hide Padded;
    var nulled := vout[n := NullTxOut];
    if n != |vout| - 1 {
      TrimmedUnique(nulled, []);
      assert nulled + [] == nulled;
    }
  }

  lemma PrunedRestoreAlike(c: Coins, d: Coins, undo: TxInUndo, n: nat)
    requires c.IsPruned() && d.IsPruned()
    ensures RestoreOutput(c, undo, n) == RestoreOutput(d, undo, n)
  {
  }

  lemma SpendOneAvailable(u: Utxo, o: OutPoint, p: OutPoint)
    requires p != o
    ensures Available(SpendOne(u, o), p) == Available(u, p)
    ensures Available(u, p) ==> SpendOne(u, o)[p.hash].vout[p.n] == u[p.hash].vout[p.n]
  {
    if o.hash in u && u[o.hash].IsAvailable(o.n) && p.hash == o.hash {
      var c := u[o.hash];
      var d := c.(vout := c.vout[o.n := NullTxOut]);
      assert d.IsAvailable(p.n) == c.IsAvailable(p.n);
      assert d.Cleanup().IsAvailable(p.n) == c.IsAvailable(p.n);
      if c.IsAvailable(p.n) {
        assert !d.Cleanup().vout[p.n].IsNull();
      }
    }
  }

  lemma SpendOneGone(u: Utxo, o: OutPoint)
    ensures !Available(SpendOne(u, o), o)
  {
    if Available(u, o) {
      var c := u[o.hash];
      assert !c.(vout := c.vout[o.n := NullTxOut]).IsAvailable(o.n);
    }
  }

  lemma SpendOneRestorable(u: Utxo, o: OutPoint)
    requires AllRestorable(u)
    ensures AllRestorable(SpendOne(u, o))
  {
  }

  lemma UndoOne(u: Utxo, o: OutPoint)
    requires AllRestorable(u) && Available(u, o)
    ensures ApplyUndo(SpendOne(u, o), UndoFor(u, o), o) == Some(u)
  {
    hide RestoreOutput, Trimmed;
    var c := u[o.hash];
    RestoreSpent(c, o.n);
    var spent := c.Spend(o.n).1;
    if spent.IsPruned() {
      PrunedRestoreAlike(spent, NoCoins, UndoFor(u, o), o.n);
    }
    CleanupClean(c);
    assert Put(SpendOne(u, o), o.hash, c) == u;
  }

  // --- lists of inputs --------------------------------------------------------------

  lemma {:induction false} SpendAllAvailable(u: Utxo, outs: seq<OutPoint>, p: OutPoint)
    requires p !in outs
    ensures Available(SpendAll(u, outs), p) == Available(u, p)
    ensures Available(u, p) ==> SpendAll(u, outs)[p.hash].vout[p.n] == u[p.hash].vout[p.n]
  {
    if outs != [] {
      var init := outs[..|outs| - 1];
      SpendAllAvailable(u, init, p);
      SpendOneAvailable(SpendAll(u, init), outs[|outs| - 1], p);
    }
  }

  lemma {:induction false} SpendAllGone(u: Utxo, outs: seq<OutPoint>, p: OutPoint)
    requires p in outs
    ensures !Available(SpendAll(u, outs), p)
  {
    var init, last := outs[..|outs| - 1], outs[|outs| - 1];
    if p == last {
      SpendOneGone(SpendAll(u, init), p);
    } else {
      assert p in init;
      SpendAllGone(u, init, p);
      SpendOneAvailable(SpendAll(u, init), last, p);
    }
  }

  lemma {:induction false} SpendAllRestorable(u: Utxo, outs: seq<OutPoint>)
    requires AllRestorable(u)
    ensures AllRestorable(SpendAll(u, outs))
  {
    if outs != [] {
      SpendAllRestorable(u, outs[..|outs| - 1]);
      SpendOneRestorable(SpendAll(u, outs[..|outs| - 1]), outs[|outs| - 1]);
    }
  }

  lemma {:induction false} SpendAllKeys(u: Utxo, outs: seq<OutPoint>)
    ensures SpendAll(u, outs).Keys <= u.Keys
  {
    if outs != [] {
      SpendAllKeys(u, outs[..|outs| - 1]);
    }
  }

  /** All inputs present and none named twice: then each is still there when its turn comes. */
  lemma NextInputAvailable(u: Utxo, outs: seq<OutPoint>, k: nat)
    requires HaveInputs(u, outs) && Distinct(outs) && k < |outs|
    ensures Available(SpendAll(u, outs[..k]), outs[k])
    ensures SpendAll(u, outs[..k])[outs[k].hash].vout[outs[k].n] == u[outs[k].hash].vout[outs[k].n]
  {
    assert outs[k] !in outs[..k];
    SpendAllAvailable(u, outs[..k], outs[k]);
  }

  /** Undoing the inputs in reverse gives back the set they were taken from. */
  lemma {:induction false} UndoAllInverts(u: Utxo, outs: seq<OutPoint>)
    requires AllRestorable(u) && HaveInputs(u, outs) && Distinct(outs)
    ensures UndoAll(SpendAll(u, outs), UndosFor(u, outs), outs) == Some(u)
    decreases |outs|
  {
    hide AllRestorable, Available, SpendOne, UndoFor, ApplyUndo;
    if outs != [] {
      var k := |outs| - 1;
      var init := outs[..k];
      var before := SpendAll(u, init);
      NextInputAvailable(u, outs, k);
      SpendAllRestorable(u, init);
      UndoOne(before, outs[k]);
      assert UndosFor(u, outs)[..k] == UndosFor(u, init);
      assert UndosFor(u, outs)[k] == UndoFor(before, outs[k]);
      UndoAllInverts(u, init);
    }
  }

  // --- blocks ------------------------------------------------------------------------

  function ValueOut(vout: seq<TxOut>): (v: int) {
    if vout == [] then 0 else ValueOut(vout[..|vout| - 1]) + vout[|vout| - 1].value
  }

  /** The context-free rules for one transaction. */
  predicate TxWellFormed(tx: Tx) {
    && |tx.vin| > 0 && |tx.vout| > 0
    && (forall i :: 0 <= i < |tx.vout| ==> MoneyRange(tx.vout[i].value))
    && MoneyRange(ValueOut(tx.vout))
    && Distinct(tx.vin)
    && (!tx.IsCoinBase() ==> forall i :: 0 <= i < |tx.vin| ==> !tx.vin[i].IsNull())
  }

  /** A coinbase first, no other coinbase, every transaction well formed. */
  predicate BlockShape(vtx: seq<Tx>) {
    && |vtx| > 0
    && (forall i :: 0 <= i < |vtx| ==> vtx[i].IsCoinBase() == (i == 0))
    && (forall i :: 0 <= i < |vtx| ==> TxWellFormed(vtx[i]))
  }

  /** Within a block, one hash stands for one transaction. */
  predicate CollisionFree(vtx: seq<Tx>) {
    forall i, j :: 0 <= i < j < |vtx| && vtx[i].txid == vtx[j].txid ==> vtx[i] == vtx[j]
  }

  /** No transaction of the block has unspent coins already. */
  predicate Bip30(u: Utxo, vtx: seq<Tx>) { forall i :: 0 <= i < |vtx| ==> vtx[i].txid !in u }

  /** The inputs of the first n transactions are there when their turn comes. */
  predicate InputsFound(u: Utxo, vtx: seq<Tx>, height: int, n: nat)
    requires n <= |vtx|
  {
    forall i :: 0 < i < n ==> HaveInputs(ApplyTxs(u, vtx[..i], height), vtx[i].vin)
  }

  lemma ApplyTxsStep(u: Utxo, vtx: seq<Tx>, height: int, i: nat)
    requires i < |vtx|
    ensures ApplyTxs(u, vtx[..i + 1], height) == ApplyTx(ApplyTxs(u, vtx[..i], height), vtx[i], height)
  {
    assert vtx[..i + 1][..i] == vtx[..i];
  }

  lemma ApplyTxAvailable(u: Utxo, tx: Tx, height: int, o: OutPoint)
    requires o.hash != tx.txid
    ensures Available(ApplyTx(u, tx, height), o) ==> Available(u, o)
  {
    if !tx.IsCoinBase() {
      if o in tx.vin {
        SpendAllGone(u, tx.vin, o);
      } else {
        SpendAllAvailable(u, tx.vin, o);
      }
    }
  }

  /** An output that turns up while a block is applied belongs to one of its transactions. */
  lemma {:induction false} NewOutputHasCreator(u: Utxo, vtx: seq<Tx>, height: int, a: nat, b: nat, o: OutPoint)
      returns (k: nat)
    requires a <= b <= |vtx|
    requires !Available(ApplyTxs(u, vtx[..a], height), o) && Available(ApplyTxs(u, vtx[..b], height), o)
    ensures a <= k < b && vtx[k].txid == o.hash
    decreases b - a
  {
    assert a < b;
    ApplyTxsStep(u, vtx, height, b - 1);
    if vtx[b - 1].txid == o.hash {
      k := b - 1;
    } else {
      ApplyTxAvailable(ApplyTxs(u, vtx[..b - 1], height), vtx[b - 1], height, o);
      k := NewOutputHasCreator(u, vtx, height, a, b - 1, o);
    }
  }

  lemma {:induction false} NewTxidHasCreator(u: Utxo, vtx: seq<Tx>, height: int, b: nat, t: Txid)
      returns (k: nat)
    requires b <= |vtx| && t !in u && t in ApplyTxs(u, vtx[..b], height)
    ensures k < b && vtx[k].txid == t
    decreases b
  {
    assert vtx[..0] == [];
    ApplyTxsStep(u, vtx, height, b - 1);
    if vtx[b - 1].txid == t {
      k := b - 1;
    } else {
      SpendAllKeys(ApplyTxs(u, vtx[..b - 1], height), vtx[b - 1].vin);
      k := NewTxidHasCreator(u, vtx, height, b - 1, t);
    }
  }

  predicate TxidsDistinct(vtx: seq<Tx>, n: nat)
    requires n <= |vtx|
  {
    forall i, j :: 0 <= i < j < n ==> vtx[i].txid != vtx[j].txid
  }

  /** A block cannot hold the same transaction twice and still find all its inputs: the second
      copy would have to spend what the first one already spent. */
  lemma {:induction false} NoDuplicateTx(u: Utxo, vtx: seq<Tx>, height: int, n: nat)
    requires n <= |vtx|
    requires BlockShape(vtx) && CollisionFree(vtx) && Bip30(u, vtx) && InputsFound(u, vtx, height, n)
    ensures TxidsDistinct(vtx, n)
    decreases n
  {
    hide BlockShape, CollisionFree, Bip30, HaveInputs, ApplyTxs;
    if n > 0 {
      NoDuplicateTx(u, vtx, height, n - 1);
      forall i | 0 <= i < n - 1
        ensures vtx[i].txid != vtx[n - 1].txid
      {
        NoSecondCopy(u, vtx, height, i, n - 1);
      }
    }
  }

  lemma NoSecondCopy(u: Utxo, vtx: seq<Tx>, height: int, i: nat, j: nat)
    requires i < j < |vtx|
    requires BlockShape(vtx) && CollisionFree(vtx) && Bip30(u, vtx)
    requires InputsFound(u, vtx, height, j + 1) && TxidsDistinct(vtx, j)
    ensures vtx[i].txid != vtx[j].txid
  {
    hide BlockShape, CollisionFree, HaveInputs, ApplyTxs, ApplyTx;
    if vtx[i].txid == vtx[j].txid {
      CopyIsNoCoinbase(vtx, i, j);
      var o := vtx[j].vin[0];
      FirstInputFound(ApplyTxs(u, vtx[..j], height), vtx[j]);
      FirstInputFound(ApplyTxs(u, vtx[..i], height), vtx[i]);
      if o.hash == vtx[i].txid {
        var k := NewTxidHasCreator(u, vtx, height, i, o.hash);
        assert false;
      }
      ApplyTxsStep(u, vtx, height, i);
      SpentStaysGone(ApplyTxs(u, vtx[..i], height), vtx[i], height, o);
      var k := NewOutputHasCreator(u, vtx, height, i + 1, j, o);
      var k' := NewTxidHasCreator(u, vtx, height, i, o.hash);
      assert false;
    }
  }

  lemma CopyIsNoCoinbase(vtx: seq<Tx>, i: nat, j: nat)
    requires i < j < |vtx| && BlockShape(vtx) && CollisionFree(vtx) && vtx[i].txid == vtx[j].txid
    ensures vtx[i] == vtx[j] && i > 0 && |vtx[i].vin| > 0 && !vtx[i].IsCoinBase()
  {
    assert vtx[j].IsCoinBase() == (j == 0) && TxWellFormed(vtx[j]);
  }

  lemma FirstInputFound(u: Utxo, tx: Tx)
    requires HaveInputs(u, tx.vin) && |tx.vin| > 0
    ensures Available(u, tx.vin[0])
  {
  }

  lemma SpentStaysGone(u: Utxo, tx: Tx, height: int, o: OutPoint)
    requires !tx.IsCoinBase() && o in tx.vin && o.hash != tx.txid
    ensures !Available(ApplyTx(u, tx, height), o)
  {
    hide SpendAll, FromTx;
    SpendAllGone(u, tx.vin, o);
  }

  /** When a transaction's turn comes, its own record is still empty. */
  lemma OwnRecordEmpty(u: Utxo, vtx: seq<Tx>, height: int, i: nat)
    requires i < |vtx|
    requires BlockShape(vtx) && CollisionFree(vtx) && Bip30(u, vtx) && InputsFound(u, vtx, height, i + 1)
    ensures vtx[i].txid !in ApplyTxs(u, vtx[..i], height)
    ensures vtx[i].txid !in SpendTx(ApplyTxs(u, vtx[..i], height), vtx[i])
  {
    NoDuplicateTx(u, vtx, height, i + 1);
    var before := ApplyTxs(u, vtx[..i], height);
    if vtx[i].txid in before {
      var k := NewTxidHasCreator(u, vtx, height, i, vtx[i].txid);
    }
    SpendAllKeys(before, vtx[i].vin);
  }

  // --- disconnecting undoes connecting ------------------------------------------------

  /** Coins created at height zero would be lost to undo data; there must be none. */
  predicate Undoable(vtx: seq<Tx>, height: int) {
    height >= 1 || forall i :: 0 <= i < |vtx| ==> FromTx(vtx[i], height).IsPruned()
  }

  /** Records that a well-formed transaction leaves at a positive height can be restored. */
  lemma FromTxRestorable(tx: Tx, height: int)
    requires TxWellFormed(tx) && height >= 1
    ensures FromTx(tx, height).IsPruned() || Restorable(FromTx(tx, height))
  {
  }

  lemma AddTxRestorable(u: Utxo, tx: Tx, height: int)
    requires AllRestorable(u) && TxWellFormed(tx) && (height >= 1 || FromTx(tx, height).IsPruned())
    ensures AllRestorable(AddTx(u, tx, height))
  {
    hide TxWellFormed, Restorable, FromTx;
    if height >= 1 {
      FromTxRestorable(tx, height);
    }
  }

  lemma {:induction false} ApplyTxsRestorable(u: Utxo, vtx: seq<Tx>, height: int)
    requires AllRestorable(u) && forall i :: 0 <= i < |vtx| ==> TxWellFormed(vtx[i])
    requires Undoable(vtx, height)
    ensures AllRestorable(ApplyTxs(u, vtx, height))
  {
    hide AllRestorable, TxWellFormed, SpendAll, AddTx, FromTx;
    if vtx != [] {
      var n := |vtx| - 1;
      ApplyTxsRestorable(u, vtx[..n], height);
      var before := ApplyTxs(u, vtx[..n], height);
      SpendAllRestorable(before, vtx[n].vin);
      AddTxRestorable(SpendTx(before, vtx[n]), vtx[n], height);
    }
  }

  lemma ClearUnspendableIdempotent(tx: Tx, height: int)
    ensures FromTx(tx, height).ClearUnspendable() == FromTx(tx, height)
  {
    var c := FromTx(tx, height);
    assert WithoutUnspendable(c.vout) == c.vout;
    TrimmedUnique(c.vout, []);
    assert c.vout + [] == c.vout;
  }

  /** The outputs a transaction added are found unchanged and taken away cleanly. */
  lemma RemoveAddedTx(u: Utxo, tx: Tx, height: int)
    requires tx.txid !in u
    ensures RemoveTx(AddTx(u, tx, height), tx, height) == Some(u)
  {
    ClearUnspendableIdempotent(tx, height);
    assert Put(AddTx(u, tx, height), tx.txid, NoCoins) == u;
    assert NoCoins.ClearUnspendable().IsPruned();
  }

  lemma BlockUndoLast(u: Utxo, vtx: seq<Tx>, height: int)
    requires |vtx| > 1
    ensures var n, undos := |vtx| - 1, BlockUndoFor(u, vtx, height);
            && undos[n - 1] == UndosFor(ApplyTxs(u, vtx[..n], height), vtx[n].vin)
            && undos[..n - 1] == BlockUndoFor(u, vtx[..n], height)
  {
    hide UndosFor, ApplyTxs;
  }

  /** The last transaction applied is taken back: first its outputs, then its inputs. */
  lemma LastTxUndone(u: Utxo, vtx: seq<Tx>, height: int, i: nat)
    requires i < |vtx| && AllRestorable(u) && Undoable(vtx, height)
    requires BlockShape(vtx) && CollisionFree(vtx) && Bip30(u, vtx) && InputsFound(u, vtx, height, i + 1)
    ensures var before, tx := ApplyTxs(u, vtx[..i], height), vtx[i];
            && RemoveTx(ApplyTxs(u, vtx[..i + 1], height), tx, height) == Some(SpendTx(before, tx))
            && (i > 0 ==> UndoAll(SpendTx(before, tx), UndosFor(before, tx.vin), tx.vin) == Some(before))
  {
    hide CollisionFree, Bip30, AllRestorable, HaveInputs, RemoveTx, UndoAll, UndosFor, SpendAll, FromTx, AddTx, ApplyTxs;
    var before := ApplyTxs(u, vtx[..i], height);
    ApplyTxsStep(u, vtx, height, i);
    ApplyTxsRestorable(u, vtx[..i], height);
    OwnRecordEmpty(u, vtx, height, i);
    RemoveAddedTx(SpendTx(before, vtx[i]), vtx[i], height);
    if i > 0 {
      UndoAllInverts(before, vtx[i].vin);
    }
  }

  lemma UndoTxsLast(u: Utxo, vtx: seq<Tx>, undos: seq<seq<TxInUndo>>, height: int, v: Utxo, w: Utxo)
    requires |vtx| > 0 && |undos| == |vtx| - 1
    requires var n := |vtx| - 1; RemoveTx(u, vtx[n], height) == Some(v)
    requires var n := |vtx| - 1; n > 0 ==> |undos[n - 1]| == |vtx[n].vin| && UndoAll(v, undos[n - 1], vtx[n].vin) == Some(w)
    ensures var n := |vtx| - 1; UndoTxs(u, vtx, undos, height) == if n == 0 then Some(v) else UndoTxs(w, vtx[..n], undos[..n - 1], height)
  {
    hide RemoveTx, UndoAll;
  }

  /** Disconnecting a block from the set it produced, with the undo data it recorded, restores
      the set it started from and reports clean. */
  lemma {:induction false} DisconnectInvertsConnect(u: Utxo, vtx: seq<Tx>, height: int, n: nat)
    requires n <= |vtx| && AllRestorable(u) && Undoable(vtx, height)
    requires BlockShape(vtx) && CollisionFree(vtx) && Bip30(u, vtx) && InputsFound(u, vtx, height, n)
    ensures UndoTxs(ApplyTxs(u, vtx[..n], height), vtx[..n], BlockUndoFor(u, vtx[..n], height), height) == Some(u)
    decreases n
  {
    hide BlockShape, CollisionFree, Bip30, Undoable, AllRestorable, HaveInputs, RemoveTx, UndoAll, UndosFor, SpendAll;
    if n == 0 {
      assert vtx[..n] == [];
    } else {
      hide ApplyTxs, BlockUndoFor, UndoTxs;
      var i := n - 1;
      var before := ApplyTxs(u, vtx[..i], height);
      LastTxUndone(u, vtx, height, i);
      assert vtx[..n][..i] == vtx[..i];
      if i > 0 {
        BlockUndoLast(u, vtx[..n], height);
        DisconnectInvertsConnect(u, vtx, height, i);
      } else {
        FirstSpendsNothing(u, vtx, height);
      }
      UndoTxsLast(ApplyTxs(u, vtx[..n], height), vtx[..n], BlockUndoFor(u, vtx[..n], height), height, SpendTx(before, vtx[i]), before);
    }
  }

  lemma FirstSpendsNothing(u: Utxo, vtx: seq<Tx>, height: int)
    requires BlockShape(vtx)
    ensures SpendTx(ApplyTxs(u, vtx[..0], height), vtx[0]) == u
  {
    assert vtx[..0] == [];
  }
}
