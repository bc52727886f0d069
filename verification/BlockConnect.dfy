/**
 Connecting and disconnecting blocks on a coin cache, in place.

 Every method is measured against the flat functions of `BlockEffects` and `Money`. Script
 and signature-operation checks are answers handed in from outside.
 */
module BlockConnect {
  import opened Basics
  import opened Coins
  import opened CoinsCache
  import opened BlockEffects
  import opened Money

  const COINBASE_MATURITY: int := 100

  /** A 64-bit amount: every value assigned to one is shown to fit. */
  type Amount = x: int | -0x8000_0000_0000_0000 <= x < 0x8000_0000_0000_0000

  // --- context-free checks ---------------------------------------------------------

  lemma {:induction false} ValueOutPrefix(vout: seq<TxOut>, k: nat)
    requires k <= |vout| && forall i :: 0 <= i < |vout| ==> vout[i].value >= 0
    ensures 0 <= ValueOut(vout[..k]) <= ValueOut(vout)
    decreases |vout| - k
  {
    if k == |vout| {
      assert vout[..k] == vout;
      ValueOutNonNegative(vout);
    } else {
      ValueOutPrefix(vout, k + 1);
      assert vout[..k + 1][..k] == vout[..k];
      ValueOutNonNegative(vout[..k]);
    }
  }

  lemma {:induction false} ValueOutNonNegative(vout: seq<TxOut>)
    requires forall i :: 0 <= i < |vout| ==> vout[i].value >= 0
    ensures ValueOut(vout) >= 0
  {
    if vout != [] {
      ValueOutNonNegative(vout[..|vout| - 1]);
    }
  }

  /** The running checks of the original accept exactly the well-formed transactions, and the
      running total never leaves 64 bits. */
  method CheckTransaction(tx: Tx) returns (ok: bool)
    ensures ok <==> TxWellFormed(tx)
  {
    if |tx.vin| == 0 || |tx.vout| == 0 {
      return false;
    }
    var nValueOut: Amount := 0;
    for i := 0 to |tx.vout|
      invariant nValueOut == ValueOut(tx.vout[..i]) && MoneyRange(nValueOut)
      invariant forall k :: 0 <= k < i ==> MoneyRange(tx.vout[k].value)
    {
      if tx.vout[i].value < 0 || tx.vout[i].value > MAX_MONEY {
        return false;
      }
      assert tx.vout[..i + 1][..i] == tx.vout[..i];
      nValueOut := nValueOut + tx.vout[i].value;
      if !MoneyRange(nValueOut) {
        if forall k :: 0 <= k < |tx.vout| ==> MoneyRange(tx.vout[k].value) {
          ValueOutPrefix(tx.vout, i + 1);
        }
        return false;
      }
    }
    assert tx.vout[..|tx.vout|] == tx.vout;
    var seen: set<OutPoint> := {};
    for i := 0 to |tx.vin|
      invariant forall o :: o in seen <==> o in tx.vin[..i]
      invariant Distinct(tx.vin[..i])
    {
      if tx.vin[i] in seen {
        var k :| 0 <= k < i && tx.vin[k] == tx.vin[i];
        return false;
      }
      seen := seen + {tx.vin[i]};
      assert tx.vin[..i + 1] == tx.vin[..i] + [tx.vin[i]];
    }
    assert tx.vin[..|tx.vin|] == tx.vin;
    if !tx.IsCoinBase() {
      for i := 0 to |tx.vin|
        invariant forall k :: 0 <= k < i ==> !tx.vin[k].IsNull()
      {
        if tx.vin[i].IsNull() {
          return false;
        }
      }
    }
    ok := true;
  }

  // --- inputs ------------------------------------------------------------------------

  /** Whether all inputs are there. */
  method HaveAllInputs(view: CoinsViewCache, tx: Tx) returns (ok: bool)
    requires view.Layered() && view.Valid()
    modifies view.BaseRepr, view
    ensures view.Valid() && view.View() == old(view.View()) && view.Under() == old(view.Under())
    ensures view.hashBlock == old(view.hashBlock)
    ensures ok <==> tx.IsCoinBase() || HaveInputs(view.View(), tx.vin)
  {
    hide CoinsViewCache.View, CoinsViewCache.Valid, CoinsViewCache.Below, CoinsViewCache.BestBelow, CoinsViewCache.Layered;
    if tx.IsCoinBase() {
      return true;
    }
    ghost var u := view.View();
    for i := 0 to |tx.vin|
      invariant view.Valid() && view.View() == u && view.Under() == old(view.Under())
      invariant view.hashBlock == old(view.hashBlock)
      invariant forall k :: 0 <= k < i ==> Available(u, tx.vin[k])
    {
      var o := tx.vin[i];
      var found, coins := view.GetCoins(o.hash);
      if !found || !coins.IsAvailable(o.n) {
        assert !Available(u, o);
        return false;
      }
    }
    ok := true;
  }

  /** The record that holds an input known to be there. */
  method InputCoins(view: CoinsViewCache, o: OutPoint) returns (coins: Coins)
    requires view.Layered() && view.Valid() && Available(view.View(), o)
    modifies view.BaseRepr, view
    ensures view.Valid() && view.View() == old(view.View()) && view.Under() == old(view.Under())
    ensures view.hashBlock == old(view.hashBlock)
    ensures coins == view.View()[o.hash]
  {
    var found;
    found, coins := view.GetCoins(o.hash);
    assert found;
  }

  /** The sum of the inputs, with every partial sum inside 64 bits. */
  method GetValueIn(view: CoinsViewCache, tx: Tx) returns (v: Amount)
    requires view.Layered() && view.Valid() && !tx.IsCoinBase()
    requires AllRestorable(view.View()) && HaveInputs(view.View(), tx.vin) && Distinct(tx.vin)
    requires Total(view.View()) <= 2 * MAX_MONEY
    modifies view.BaseRepr, view
    ensures view.Valid() && view.View() == old(view.View()) && view.Under() == old(view.Under())
    ensures view.hashBlock == old(view.hashBlock)
    ensures v == ValueIn(view.View(), tx.vin)
  {
    hide CoinsViewCache.View, CoinsViewCache.Valid, CoinsViewCache.Below, CoinsViewCache.BestBelow, CoinsViewCache.Layered;
    hide AllRestorable, Total;
    ghost var u := view.View();
    v := 0;
    for i := 0 to |tx.vin|
      invariant view.Valid() && view.View() == u && view.Under() == old(view.Under())
      invariant view.hashBlock == old(view.hashBlock)
      invariant v == ValueIn(u, tx.vin[..i])
    {
      var o := tx.vin[i];
      assert Available(u, o);
      var coins := InputCoins(view, o);
      assert tx.vin[..i + 1][..i] == tx.vin[..i];
      ValueInBounded(u, tx.vin, i + 1);
      v := v + coins.vout[o.n].value;
    }
    assert tx.vin[..|tx.vin|] == tx.vin;
  }

  predicate Mature(c: Coins, spendHeight: int) {
    c.coinBase ==> spendHeight - c.height >= COINBASE_MATURITY
  }

  /** The contextual rules for the inputs of one transaction. */
  predicate InputsAccepted(u: Utxo, tx: Tx, spendHeight: int) {
    && HaveInputs(u, tx.vin)
    && InputsInRange(u, tx.vin, spendHeight, |tx.vin|)
    && ValueIn(u, tx.vin) >= ValueOut(tx.vout)
    && MoneyRange(ValueIn(u, tx.vin) - ValueOut(tx.vout))
  }

  /** The first k inputs pass the rules that look at one input and the running sum. */
  predicate InputsInRange(u: Utxo, vin: seq<OutPoint>, spendHeight: int, k: nat)
    requires HaveInputs(u, vin) && k <= |vin|
  {
    forall i :: 0 <= i < k ==> InputInRange(u, vin, spendHeight, i)
  }

  predicate InputInRange(u: Utxo, vin: seq<OutPoint>, spendHeight: int, i: nat)
    requires HaveInputs(u, vin) && i < |vin|
  {
    && Mature(u[vin[i].hash], spendHeight)
    && MoneyRange(InputValue(u, vin[i]))
    && MoneyRange(ValueIn(u, vin[..i + 1]))
  }

  lemma RestorableValue(u: Utxo, o: OutPoint)
    requires AllRestorable(u) && Available(u, o)
    ensures MoneyRange(InputValue(u, o))
  {
    assert Restorable(u[o.hash]);
  }

  lemma ValueInStep(u: Utxo, vin: seq<OutPoint>, i: nat)
    requires i < |vin|
    ensures ValueIn(u, vin[..i + 1]) == ValueIn(u, vin[..i]) + InputValue(u, vin[i])
  {
    assert vin[..i + 1][..i] == vin[..i];
  }

  lemma RangeStep(u: Utxo, vin: seq<OutPoint>, spendHeight: int, i: nat)
    requires HaveInputs(u, vin) && i < |vin|
    ensures InputsInRange(u, vin, spendHeight, i + 1) <==>
      && InputsInRange(u, vin, spendHeight, i)
      && Mature(u[vin[i].hash], spendHeight)
      && MoneyRange(InputValue(u, vin[i]))
      && MoneyRange(ValueIn(u, vin[..i + 1]))
  {
    assert InputInRange(u, vin, spendHeight, i) <==>
      && Mature(u[vin[i].hash], spendHeight)
      && MoneyRange(InputValue(u, vin[i]))
      && MoneyRange(ValueIn(u, vin[..i + 1]));
  }

  lemma RangePrefix(u: Utxo, vin: seq<OutPoint>, spendHeight: int, i: nat)
    requires HaveInputs(u, vin) && i <= |vin| && InputsInRange(u, vin, spendHeight, |vin|)
    ensures InputsInRange(u, vin, spendHeight, i)
  {
  }

  /** Look at one input: is it mature, in range, and is the running sum still in range? */
  method CheckInput(view: CoinsViewCache, o: OutPoint, spendHeight: int, sum: Amount) returns (ok: bool, sum': Amount)
    requires view.Layered() && view.Valid() && AllRestorable(view.View()) && Available(view.View(), o)
    requires MoneyRange(sum)
    modifies view.BaseRepr, view
    ensures view.Valid() && view.View() == old(view.View()) && view.Under() == old(view.Under())
    ensures view.hashBlock == old(view.hashBlock)
    ensures ok <==> && Mature(view.View()[o.hash], spendHeight) && MoneyRange(InputValue(view.View(), o))
                    && MoneyRange(sum + InputValue(view.View(), o))
    ensures ok ==> sum' == sum + InputValue(view.View(), o)
  {
    hide CoinsViewCache.View, CoinsViewCache.Valid, CoinsViewCache.Below, CoinsViewCache.BestBelow, CoinsViewCache.Layered;
    RestorableValue(view.View(), o);
    var coins := InputCoins(view, o);
    if coins.coinBase && spendHeight - coins.height < COINBASE_MATURITY {
      return false, sum;
    }
    sum' := sum + coins.vout[o.n].value;
    ok := MoneyRange(coins.vout[o.n].value) && MoneyRange(sum');
  }

  /** The running checks accept exactly the inputs that obey the contextual rules. */
  method CheckTxInputs(view: CoinsViewCache, tx: Tx, spendHeight: int) returns (ok: bool)
    requires view.Layered() && view.Valid()
    requires AllRestorable(view.View()) && TxWellFormed(tx) && !tx.IsCoinBase()
    modifies view.BaseRepr, view
    ensures view.Valid() && view.View() == old(view.View()) && view.Under() == old(view.Under())
    ensures view.hashBlock == old(view.hashBlock)
    ensures ok <==> InputsAccepted(view.View(), tx, spendHeight)
  {
    hide CoinsViewCache.View, CoinsViewCache.Valid, CoinsViewCache.Below, CoinsViewCache.BestBelow, CoinsViewCache.Layered;
    hide TxWellFormed, AllRestorable, InputsInRange, Mature, InputValue;
    ghost var u := view.View();
    ok := HaveAllInputs(view, tx);
    if !ok {
      return;
    }
    var nValueIn: Amount := 0;
    EmptyRange(u, tx.vin, spendHeight);
    for i := 0 to |tx.vin|
      invariant view.Valid() && view.View() == u && view.Under() == old(view.Under())
      invariant view.hashBlock == old(view.hashBlock)
      invariant nValueIn == ValueIn(u, tx.vin[..i]) && MoneyRange(nValueIn)
      invariant InputsInRange(u, tx.vin, spendHeight, i)
    {
      assert Available(u, tx.vin[i]);
      ValueInStep(u, tx.vin, i);
      RangeStep(u, tx.vin, spendHeight, i);
      ok, nValueIn := CheckInput(view, tx.vin[i], spendHeight, nValueIn);
      if !ok {
        if InputsInRange(u, tx.vin, spendHeight, |tx.vin|) {
          RangePrefix(u, tx.vin, spendHeight, i + 1);
        }
        return;
      }
    }
    assert tx.vin[..|tx.vin|] == tx.vin;
    ok := nValueIn >= ValueOut(tx.vout) && MoneyRange(nValueIn - ValueOut(tx.vout));
  }

  lemma EmptyRange(u: Utxo, vin: seq<OutPoint>, spendHeight: int)
    requires HaveInputs(u, vin)
    ensures InputsInRange(u, vin, spendHeight, 0)
  {
  }

  // --- one transaction ---------------------------------------------------------------

  lemma FromTxClean(tx: Tx, height: int)
    ensures FromTx(tx, height).Cleanup() == FromTx(tx, height)
  {
    CleanupClean(FromTx(tx, height));
  }

  /** Spend one input on the cache and record how to undo it. */
  method SpendInput(view: CoinsViewCache, o: OutPoint) returns (undo: TxInUndo)
    requires view.Layered() && view.Valid() && Available(view.View(), o)
    modifies view.BaseRepr, view
    ensures view.Valid() && view.View() == SpendOne(old(view.View()), o)
    ensures undo == UndoFor(old(view.View()), o)
    ensures view.Under() == old(view.Under()) && view.hashBlock == old(view.hashBlock)
  {
    var m, coins := view.ModifyCoins(o.hash);
    assert coins.IsAvailable(o.n);
    undo := TxInUndo(coins.vout[o.n], false, 0, 0);
    var (isSpent, spent) := coins.Spend(o.n);
    assert isSpent;
    if |spent.vout| == 0 {
      undo := undo.(height := spent.height, coinBase := spent.coinBase, version := spent.version);
    }
    CleanupClean(spent);
    view.CloseModifier(m, spent);
  }

  /** Apply one transaction: the asserted availability of every input holds. */
  method UpdateCoins(view: CoinsViewCache, tx: Tx, height: int) returns (undos: seq<TxInUndo>)
    requires view.Layered() && view.Valid()
    requires !tx.IsCoinBase() ==> HaveInputs(view.View(), tx.vin) && Distinct(tx.vin)
    requires tx.txid !in view.Below() && tx.txid !in SpendTx(view.View(), tx)
    modifies view.BaseRepr, view
    ensures view.Valid() && view.View() == ApplyTx(old(view.View()), tx, height)
    ensures undos == if tx.IsCoinBase() then [] else UndosFor(old(view.View()), tx.vin)
    ensures view.Under() == old(view.Under()) && view.hashBlock == old(view.hashBlock)
  {
    hide CoinsViewCache.View, CoinsViewCache.Valid, CoinsViewCache.Below, CoinsViewCache.BestBelow, CoinsViewCache.Layered;
    hide FromTx, HaveInputs, Distinct, SpendOne, UndoFor;
    ghost var u := view.View();
    undos := [];
    var m;
    if !tx.IsCoinBase() {
      for i := 0 to |tx.vin|
        invariant view.Valid() && view.View() == SpendAll(u, tx.vin[..i])
        invariant undos == UndosFor(u, tx.vin[..i])
        invariant view.Under() == old(view.Under()) && view.hashBlock == old(view.hashBlock)
      {
        NextInputAvailable(u, tx.vin, i);
        assert tx.vin[..i + 1][..i] == tx.vin[..i];
        var undo := SpendInput(view, tx.vin[i]);
        undos := undos + [undo];
      }
      assert tx.vin[..|tx.vin|] == tx.vin;
      m := view.ModifyNewCoins(tx.txid);
    } else {
      var coins;
      m, coins := view.ModifyCoins(tx.txid);
    }
    FromTxClean(tx, height);
    view.CloseModifier(m, FromTx(tx, height));
  }

  // --- a whole block -------------------------------------------------------------------

  datatype Block = Block(hash: BlockHash, vtx: seq<Tx>)

  /** Answers of the checks that are outside this model: header, payload and proof of cooperation;
      size and signature operations per transaction; the script checks of the whole block. */
  datatype Answers = Answers(header: bool, perTx: nat -> bool, scripts: bool)

  /** The inputs of the first n transactions pass the contextual rules. */
  predicate PrefixAccepted(u: Utxo, vtx: seq<Tx>, height: int, n: nat)
    requires n <= |vtx|
  {
    forall i :: 0 < i < n ==> InputsAccepted(ApplyTxs(u, vtx[..i], height), vtx[i], height)
  }

  /** The rules a block has to obey on a set of coins. */
  predicate RulesHold(u: Utxo, vtx: seq<Tx>, height: int, grant: int) {
    && BlockShape(vtx) && Bip30(u, vtx)
    && PrefixAccepted(u, vtx, height, |vtx|)
    && ValueOut(vtx[0].vout) <= Fees(u, vtx, height) + grant
  }

  /** When a block is connected: it obeys the rules and the outside checks agree. */
  predicate Accepts(u: Utxo, vtx: seq<Tx>, height: int, grant: int, answers: Answers) {
    && RulesHold(u, vtx, height, grant)
    && answers.header && (forall i: nat :: i < |vtx| ==> answers.perTx(i)) && answers.scripts
  }

  lemma AcceptedFound(u: Utxo, vtx: seq<Tx>, height: int, n: nat)
    requires n <= |vtx| && PrefixAccepted(u, vtx, height, n)
    ensures InputsFound(u, vtx, height, n)
  {
  }

  lemma AcceptedFee(u: Utxo, tx: Tx, spendHeight: int)
    requires InputsAccepted(u, tx, spendHeight)
    ensures ValueIn(u, tx.vin) >= ValueOut(tx.vout)
  {
  }

  lemma {:induction false} FeesNonNegative(u: Utxo, vtx: seq<Tx>, height: int, n: nat)
    requires n <= |vtx| && PrefixAccepted(u, vtx, height, n)
    ensures Fees(u, vtx[..n], height) >= 0
    decreases n
  {
    hide ApplyTxs, InputsInRange, HaveInputs, InputsAccepted, ValueIn, ValueOut;
    if n > 1 {
      FeesNonNegative(u, vtx, height, n - 1);
      assert vtx[..n][..n - 1] == vtx[..n - 1];
      AcceptedFee(ApplyTxs(u, vtx[..n - 1], height), vtx[n - 1], height);
    }
  }

  /** What is known when a block's i-th transaction is reached. */
  lemma ReachedTx(u: Utxo, vtx: seq<Tx>, height: int, i: nat)
    requires i < |vtx| && AllRestorable(u) && Total(u) <= MAX_MONEY && Undoable(vtx, height)
    requires BlockShape(vtx) && CollisionFree(vtx) && Bip30(u, vtx) && PrefixAccepted(u, vtx, height, i)
    ensures AllRestorable(ApplyTxs(u, vtx[..i], height))
    ensures Total(ApplyTxs(u, vtx[..i], height)) <= 2 * MAX_MONEY
    ensures 0 <= Fees(u, vtx[..i], height) <= 2 * MAX_MONEY
  {
    hide CollisionFree, Bip30, AllRestorable, Total, InputsAccepted, HaveInputs;
    ApplyTxsRestorable(u, vtx[..i], height);
    AcceptedFound(u, vtx, height, i);
    FeesNonNegative(u, vtx, height, i);
    if i > 0 {
      PrefixTotal(u, vtx, height, i);
      FeesBounded(u, vtx, height, i);
    } else {
      assert vtx[..i] == [];
    }
  }

  /** The same, once the inputs of that transaction were found. */
  lemma FoundTx(u: Utxo, vtx: seq<Tx>, height: int, i: nat)
    requires i < |vtx|
    requires BlockShape(vtx) && CollisionFree(vtx) && Bip30(u, vtx) && PrefixAccepted(u, vtx, height, i)
    requires i > 0 ==> HaveInputs(ApplyTxs(u, vtx[..i], height), vtx[i].vin)
    ensures vtx[i].txid !in SpendTx(ApplyTxs(u, vtx[..i], height), vtx[i])
  {
    hide CollisionFree, Bip30, InputsAccepted;
    AcceptedFound(u, vtx, height, i);
    OwnRecordEmpty(u, vtx, height, i);
  }

  lemma BlockUndoStep(u: Utxo, vtx: seq<Tx>, height: int, i: nat)
    requires i < |vtx|
    ensures BlockUndoFor(u, vtx[..i + 1], height) == BlockUndoFor(u, vtx[..i], height)
         + if i == 0 then [] else [UndosFor(ApplyTxs(u, vtx[..i], height), vtx[i].vin)]
  {
    hide ApplyTxs, UndosFor;
    assert vtx[..i + 1][..i] == vtx[..i];
  }

  method CheckBlockShape(vtx: seq<Tx>) returns (ok: bool)
    ensures ok <==> BlockShape(vtx)
    ensures ok ==> |vtx| > 0
  {
    if |vtx| == 0 || !vtx[0].IsCoinBase() {
      return false;
    }
    for i := 1 to |vtx|
      invariant forall k :: 0 <= k < i ==> vtx[k].IsCoinBase() == (k == 0)
    {
      if vtx[i].IsCoinBase() {
        return false;
      }
    }
    for i := 0 to |vtx|
      invariant forall k :: 0 <= k < i ==> TxWellFormed(vtx[k])
    {
      var good := CheckTransaction(vtx[i]);
      if !good {
        return false;
      }
    }
    ok := true;
  }

  /** Whether no transaction would overwrite unspent coins. */
  method CheckBip30(view: CoinsViewCache, vtx: seq<Tx>) returns (ok: bool)
    requires view.Layered() && view.Valid()
    modifies view.BaseRepr, view
    ensures view.Valid() && view.View() == old(view.View()) && view.Under() == old(view.Under())
    ensures view.hashBlock == old(view.hashBlock)
    ensures ok <==> Bip30(view.View(), vtx)
  {
    hide CoinsViewCache.View, CoinsViewCache.Valid, CoinsViewCache.Below, CoinsViewCache.BestBelow, CoinsViewCache.Layered;
    ghost var u := view.View();
    view.ViewLive();
    for i := 0 to |vtx|
      invariant view.Valid() && view.View() == u && view.Under() == old(view.Under())
      invariant view.hashBlock == old(view.hashBlock)
      invariant forall k :: 0 <= k < i ==> vtx[k].txid !in u
    {
      var found, coins := view.GetCoins(vtx[i].txid);
      if found && !coins.IsPruned() {
        return false;
      }
      assert vtx[i].txid !in u;
    }
    ok := true;
  }

  /** Connect one more transaction: find and check its inputs, collect its fee, apply it. */
  method ConnectTx(view: CoinsViewCache, ghost u: Utxo, vtx: seq<Tx>, height: int, i: nat, nFees0: Amount)
      returns (ok: bool, nFees: Amount, undos: seq<TxInUndo>)
    requires view.Layered() && view.Valid()
    requires i < |vtx| && AllRestorable(u) && Total(u) <= MAX_MONEY && Undoable(vtx, height)
    requires BlockShape(vtx) && CollisionFree(vtx) && Bip30(u, vtx) && PrefixAccepted(u, vtx, height, i)
    requires vtx[i].txid !in view.Below()
    requires view.View() == ApplyTxs(u, vtx[..i], height) && nFees0 == Fees(u, vtx[..i], height)
    modifies view.BaseRepr, view
    ensures view.Valid() && view.Under() == old(view.Under()) && view.hashBlock == old(view.hashBlock)
    ensures ok <==> i == 0 || InputsAccepted(ApplyTxs(u, vtx[..i], height), vtx[i], height)
    ensures ok ==> view.View() == ApplyTxs(u, vtx[..i + 1], height) && nFees == Fees(u, vtx[..i + 1], height)
    ensures ok ==> undos == if i == 0 then [] else UndosFor(ApplyTxs(u, vtx[..i], height), vtx[i].vin)
  {
    hide CoinsViewCache.View, CoinsViewCache.Valid, CoinsViewCache.Below, CoinsViewCache.BestBelow, CoinsViewCache.Layered;
    hide CollisionFree, Bip30, AllRestorable, Total, Fees, ApplyTxs, UndosFor, HaveInputs, PrefixAccepted, Undoable;
    var tx := vtx[i];
    nFees, undos := nFees0, [];
    ReachedTx(u, vtx, height, i);
    FeesStep(u, vtx, height, i);
    ApplyTxsStep(u, vtx, height, i);
    if !tx.IsCoinBase() {
      ok := HaveAllInputs(view, tx);
      if !ok {
        return;
      }
      var nValueIn := GetValueIn(view, tx);
      ValueInBounded(view.View(), tx.vin, |tx.vin|);
      assert tx.vin[..|tx.vin|] == tx.vin;
      nFees := nFees + nValueIn - ValueOut(tx.vout);
      ok := CheckTxInputs(view, tx, height);
      if !ok {
        return;
      }
    }
    FoundTx(u, vtx, height, i);
    undos := UpdateCoins(view, tx, height);
    ok := true;
  }

  /** Connect a block to a cache that holds its parent's coins. The verdict is exact, the new
      coins and the undo data are those of the flat model, and no running sum leaves 64 bits. */
  method ConnectBlock(view: CoinsViewCache, block: Block, height: int, grant: Amount, answers: Answers)
      returns (ok: bool, undo: seq<seq<TxInUndo>>)
    requires view.Layered() && view.Valid()
    requires AllRestorable(view.View()) && Total(view.View()) <= MAX_MONEY && 0 <= grant <= MAX_MONEY
    requires CollisionFree(block.vtx) && Undoable(block.vtx, height)
    requires forall i :: 0 <= i < |block.vtx| && block.vtx[i].txid in view.Below() ==> block.vtx[i].txid in view.View()
    modifies view.BaseRepr, view
    ensures view.Valid() && view.Under() == old(view.Under())
    ensures ok <==> Accepts(old(view.View()), block.vtx, height, grant, answers)
    ensures ok ==> view.View() == ApplyTxs(old(view.View()), block.vtx, height)
    ensures ok ==> undo == BlockUndoFor(old(view.View()), block.vtx, height)
    ensures ok ==> view.hashBlock == block.hash
  {
    hide CoinsViewCache.View, CoinsViewCache.Valid, CoinsViewCache.Below, CoinsViewCache.BestBelow, CoinsViewCache.Layered;
    hide BlockShape, CollisionFree, AllRestorable, Total, Fees, ApplyTxs, BlockUndoFor, UndosFor, InputsAccepted, Undoable;
    ghost var u := view.View();
    var vtx := block.vtx;
    undo := [];
    ok := false;
    if !answers.header {
      return;
    }
    ok := CheckBlockShape(vtx);
    if !ok {
      return;
    }
    ok := CheckBip30(view, vtx);
    if !ok {
      return;
    }
    var nFees: Amount := 0;
    EmptyPrefix(u, vtx, height);
    for i := 0 to |vtx|
      invariant view.Valid() && view.Under() == old(view.Under())
      invariant view.View() == ApplyTxs(u, vtx[..i], height)
      invariant nFees == Fees(u, vtx[..i], height) && undo == BlockUndoFor(u, vtx[..i], height)
      invariant PrefixAccepted(u, vtx, height, i)
      invariant forall k: nat :: k < i ==> answers.perTx(k)
    {
      ok := answers.perTx(i);
      if !ok {
        return;
      }
      var undos;
      ok, nFees, undos := ConnectTx(view, u, vtx, height, i, nFees);
      if !ok {
        return;
      }
      BlockUndoStep(u, vtx, height, i);
      if i > 0 {
        undo := undo + [undos];
      }
    }
    assert vtx[..|vtx|] == vtx;
    FeesWithGrant(u, vtx, height);
    nFees := nFees + grant;
    ok := ValueOut(vtx[0].vout) <= nFees && answers.scripts;
    if ok {
      view.SetBestBlock(block.hash);
    }
  }

  lemma EmptyPrefix(u: Utxo, vtx: seq<Tx>, height: int)
    ensures ApplyTxs(u, vtx[..0], height) == u
    ensures Fees(u, vtx[..0], height) == 0 && BlockUndoFor(u, vtx[..0], height) == []
  {
  }

  lemma FeesWithGrant(u: Utxo, vtx: seq<Tx>, height: int)
    requires AllRestorable(u) && Total(u) <= MAX_MONEY && Undoable(vtx, height)
    requires BlockShape(vtx) && CollisionFree(vtx) && Bip30(u, vtx) && PrefixAccepted(u, vtx, height, |vtx|)
    ensures 0 <= Fees(u, vtx, height) <= 2 * MAX_MONEY
  {
    hide CollisionFree, Bip30, AllRestorable, Total, InputsAccepted, HaveInputs;
    assert vtx[..|vtx|] == vtx;
    AcceptedFound(u, vtx, height, |vtx|);
    FeesNonNegative(u, vtx, height, |vtx|);
    FeesBounded(u, vtx, height, |vtx|);
  }

  // --- disconnecting -------------------------------------------------------------------

  lemma ClearedPruned(c: Coins)
    requires c.IsPruned()
    ensures c.ClearUnspendable().IsPruned()
  {
  }

  /** The branches of the undo routine on one record. */
  method RestoreRecord(before: Coins, undo: TxInUndo, n: nat) returns (coins: Coins, clean: bool)
    ensures clean <==> RestoreOutput(before, undo, n).Some?
    ensures clean ==> Some(coins) == RestoreOutput(before, undo, n)
  {
    coins, clean := before, true;
    if undo.height != 0 {
      if !coins.IsPruned() {
        clean := false;
      }
      coins := Coins(undo.coinBase, [], undo.height, undo.version);
    } else if coins.IsPruned() {
      clean := false;
    }
    if coins.IsAvailable(n) {
      clean := false;
    }
    coins := coins.(vout := Padded(coins.vout, n + 1));
    coins := coins.(vout := coins.vout[n := undo.txout]);
  }

  /** Undo on a set, by way of the record that stands for the entry. */
  lemma ApplyUndoAt(u: Utxo, undo: TxInUndo, o: OutPoint, c: Coins)
    requires Agrees(c, u, o.hash)
    ensures ApplyUndo(u, undo, o) ==
      match RestoreOutput(c, undo, o.n)
      case None => None
      case Some(d) => Some(Put(u, o.hash, d.Cleanup()))
  {
    hide RestoreOutput, Put;
    if c.IsPruned() {
      PrunedRestoreAlike(c, NoCoins, undo, o.n);
    }
  }

  /** Bring one spent output back; unclean data is reported. */
  method ApplyTxInUndo(view: CoinsViewCache, undo: TxInUndo, o: OutPoint) returns (clean: bool)
    requires view.Layered() && view.Valid()
    modifies view.BaseRepr, view
    ensures view.Valid() && view.Under() == old(view.Under()) && view.hashBlock == old(view.hashBlock)
    ensures clean <==> ApplyUndo(old(view.View()), undo, o).Some?
    ensures clean ==> Some(view.View()) == ApplyUndo(old(view.View()), undo, o)
  {
    hide CoinsViewCache.View, CoinsViewCache.Valid, CoinsViewCache.Below, CoinsViewCache.BestBelow, CoinsViewCache.Layered;
    hide RestoreOutput, ApplyUndo, Put, Agrees, CoinsViewCache.Modifying;
    var m, coins := view.ModifyCoins(o.hash);
    ApplyUndoAt(view.View(), undo, o, coins);
    coins, clean := RestoreRecord(coins, undo, o.n);
    view.CloseModifier(m, coins);
  }

  /** Take away the outputs of a transaction; a mismatch is reported. */
  method RemoveOutputs(view: CoinsViewCache, tx: Tx, height: int) returns (clean: bool)
    requires view.Layered() && view.Valid()
    modifies view.BaseRepr, view
    ensures view.Valid() && view.Under() == old(view.Under()) && view.hashBlock == old(view.hashBlock)
    ensures clean <==> RemoveTx(old(view.View()), tx, height).Some?
    ensures clean ==> Some(view.View()) == RemoveTx(old(view.View()), tx, height)
  {
    hide CoinsViewCache.View, CoinsViewCache.Valid, CoinsViewCache.Below, CoinsViewCache.BestBelow, CoinsViewCache.Layered;
    var m, coins := view.ModifyCoins(tx.txid);
    if coins.IsPruned() {
      ClearedPruned(coins);
      ClearedPruned(NoCoins);
    }
    var outs := coins.ClearUnspendable();
    var outsBlock := FromTx(tx, height);
    if outsBlock.version < 0 {
      outs := outs.(version := outsBlock.version);
    }
    clean := outs.SameAs(outsBlock);
    CleanupClean(NoCoins);
    view.CloseModifier(m, NoCoins);
  }

  /** Restore the inputs of one transaction, last to first. */
  method RestoreInputs(view: CoinsViewCache, undos: seq<TxInUndo>, outs: seq<OutPoint>) returns (clean: bool)
    requires view.Layered() && view.Valid() && |undos| == |outs|
    modifies view.BaseRepr, view
    ensures view.Valid() && view.Under() == old(view.Under()) && view.hashBlock == old(view.hashBlock)
    ensures clean <==> UndoAll(old(view.View()), undos, outs).Some?
    ensures clean ==> Some(view.View()) == UndoAll(old(view.View()), undos, outs)
  {
    hide CoinsViewCache.View, CoinsViewCache.Valid, CoinsViewCache.Below, CoinsViewCache.BestBelow, CoinsViewCache.Layered;
    hide ApplyUndo;
    clean := true;
    ghost var result := UndoAll(view.View(), undos, outs);
    assert undos[..|outs|] == undos && outs[..|outs|] == outs;
    for j := |outs| downto 0
      invariant view.Valid() && view.Under() == old(view.Under()) && view.hashBlock == old(view.hashBlock)
      invariant clean ==> UndoAll(view.View(), undos[..j], outs[..j]) == result
      invariant !clean ==> result == None
    {
      assert outs[..j + 1][..j] == outs[..j] && undos[..j + 1][..j] == undos[..j];
      var ok := ApplyTxInUndo(view, undos[j], outs[j]);
      if !ok {
        clean := false;
      }
    }
  }

  /** Disconnect a block with recorded undo data. Failure is reported exactly when the flat
      model has no result, and otherwise the coins are those of the flat model. */
  method DisconnectBlock(view: CoinsViewCache, block: Block, height: int, prevHash: BlockHash,
                         undo: Option<seq<seq<TxInUndo>>>) returns (clean: bool)
    requires view.Layered() && view.Valid()
    modifies view.BaseRepr, view
    ensures view.Valid() && view.Under() == old(view.Under())
    ensures clean <==> Disconnected(old(view.View()), block.vtx, height, undo).Some?
    ensures clean ==> Some(view.View()) == Disconnected(old(view.View()), block.vtx, height, undo)
    ensures clean ==> view.hashBlock == prevHash
  {
    hide CoinsViewCache.View, CoinsViewCache.Valid, CoinsViewCache.Below, CoinsViewCache.BestBelow, CoinsViewCache.Layered;
    hide RemoveTx, UndoAll;
    if undo.None? {
      return false;
    }
    var undos, vtx := undo.value, block.vtx;
    if |undos| + 1 != |vtx| {
      return false;
    }
    ghost var result := UndoTxs(view.View(), vtx, undos, height);
    assert vtx[..|vtx|] == vtx && undos[..|vtx| - 1] == undos;
    clean := true;
    for i := |vtx| downto 0
      invariant view.Valid() && view.Under() == old(view.Under())
      invariant clean ==> UndoTxs(view.View(), vtx[..i], undos[..if i == 0 then 0 else i - 1], height) == result
      invariant !clean ==> result == None
    {
      assert vtx[..i + 1][..i] == vtx[..i];
      var ok := RemoveOutputs(view, vtx[i], height);
      clean := clean && ok;
      if i > 0 {
        assert undos[..i][..i - 1] == undos[..i - 1];
        if |undos[i - 1]| != |vtx[i].vin| {
          return false;
        }
        ok := RestoreInputs(view, undos[i - 1], vtx[i].vin);
        clean := clean && ok;
      } else {
        assert undos[..0] == [];
      }
    }
    view.SetBestBlock(prevHash);
  }

  function Disconnected(u: Utxo, vtx: seq<Tx>, height: int, undo: Option<seq<seq<TxInUndo>>>): (r: Option<Utxo>) {
    if undo.None? || |undo.value| + 1 != |vtx| then None else UndoTxs(u, vtx, undo.value, height)
  }

  /** An accepted block is undone by the data recorded when it was connected. */
  lemma AcceptedIsUndone(u: Utxo, vtx: seq<Tx>, height: int, grant: int)
    requires AllRestorable(u) && CollisionFree(vtx) && Undoable(vtx, height)
    requires RulesHold(u, vtx, height, grant)
    ensures Disconnected(ApplyTxs(u, vtx, height), vtx, height, Some(BlockUndoFor(u, vtx, height))) == Some(u)
  {
    hide CollisionFree, Bip30, AllRestorable, InputsAccepted;
    AcceptedFound(u, vtx, height, |vtx|);
    assert vtx[..|vtx|] == vtx;
    DisconnectInvertsConnect(u, vtx, height, |vtx|);
  }

  /** An accepted block leaves restorable coins and creates no more than the grant. */
  lemma AcceptedEffect(u: Utxo, vtx: seq<Tx>, height: int, grant: int)
    requires AllRestorable(u) && CollisionFree(vtx) && Undoable(vtx, height)
    requires RulesHold(u, vtx, height, grant)
    ensures AllRestorable(ApplyTxs(u, vtx, height))
    ensures Total(ApplyTxs(u, vtx, height)) <= Total(u) + grant
  {
    hide CollisionFree, Bip30, AllRestorable, InputsAccepted, Total, HaveInputs;
    AcceptedFound(u, vtx, height, |vtx|);
    ApplyTxsRestorable(u, vtx, height);
    BlockConserves(u, vtx, height, grant);
  }

  // --- on top of another cache -----------------------------------------------------------

  /** Connect a block through a cache of its own and push the result down; a rejected block
      leaves no trace. */
  method ConnectThrough(tip: CoinsViewCache, block: Block, height: int, prevHash: BlockHash, grant: Amount, answers: Answers)
      returns (ok: bool, undo: seq<seq<TxInUndo>>)
    requires tip.Layered() && tip.Valid() && tip.Best() == prevHash
    requires AllRestorable(tip.View()) && Total(tip.View()) <= MAX_MONEY && 0 <= grant <= MAX_MONEY
    requires CollisionFree(block.vtx) && Undoable(block.vtx, height)
    modifies tip.BaseRepr, tip
    ensures tip.Valid()
    ensures ok <==> Accepts(old(tip.View()), block.vtx, height, grant, answers)
    ensures ok ==> tip.View() == ApplyTxs(old(tip.View()), block.vtx, height) && tip.hashBlock == block.hash
    ensures ok ==> undo == BlockUndoFor(old(tip.View()), block.vtx, height)
    ensures !ok ==> tip.View() == old(tip.View()) && tip.Best() == old(tip.Best())
  {
    hide AllRestorable, Total, CollisionFree, Undoable, Accepts, ApplyTxs, BlockUndoFor;
    hide CoinsViewCache.View, CoinsViewCache.Best;
    var view := new CoinsViewCache.OnCache(tip);
    var best := view.GetBestBlock();
    assert prevHash == best;
    ok, undo := ConnectBlock(view, block, height, grant, answers);
    if ok {
      view.Flush();
    }
  }

  /** Disconnect a block through a cache of its own. */
  method DisconnectThrough(tip: CoinsViewCache, block: Block, height: int, prevHash: BlockHash,
                           undo: Option<seq<seq<TxInUndo>>>) returns (clean: bool)
    requires tip.Layered() && tip.Valid() && tip.Best() == block.hash
    modifies tip.BaseRepr, tip
    ensures tip.Valid()
    ensures clean <==> Disconnected(old(tip.View()), block.vtx, height, undo).Some?
    ensures clean ==> Some(tip.View()) == Disconnected(old(tip.View()), block.vtx, height, undo)
    ensures clean ==> tip.hashBlock == prevHash
    ensures !clean ==> tip.View() == old(tip.View()) && tip.Best() == old(tip.Best())
  {
    hide CoinsViewCache.View, CoinsViewCache.Best, Disconnected;
    var view := new CoinsViewCache.OnCache(tip);
    var best := view.GetBestBlock();
    assert block.hash == best;
    clean := DisconnectBlock(view, block, height, prevHash, undo);
    if clean {
      view.Flush();
    }
  }
}
