/** The stored form of the undo data of one input. */
module UndoCodec {
  import opened Basics
  import opened BlockEffects
  import opened Coins
  import opened CoinsCache
  import opened Products
  import Compressor

  type Bytes = Compressor.Bytes
  type Keys = Compressor.Keys

  /** Undo data that can be written: no negative height, an output that can be stored. */
  predicate Writable(undo: TxInUndo) { undo.height >= 0 && Compressor.Storable(undo.txout) }

  /** What is left of undo data when it is written: no version without a height, and only the low seven bits of a
      negative one. */
  function StoredUndo(undo: TxInUndo): (r: TxInUndo)
    ensures r == undo <==> if undo.height > 0 then undo.version >= 0 else undo.version == 0
  {
    undo.(version := if undo.height > 0 then Compressor.StoredInt(undo.version) else 0)
  }

  function HeightCode(height: nat, coinBase: bool): nat { height * 2 + if coinBase then 1 else 0 }

  /** The version is written only with a height, that is, for the last output of a transaction. */
  function WriteUndo(keys: Keys, undo: TxInUndo): (r: Bytes)
    requires Writable(undo)
  {
    Compressor.VarInt(HeightCode(undo.height, undo.coinBase))
    + (if undo.height > 0 then Compressor.IntForm(undo.version) else [])
    + Compressor.WriteTxOut(keys, undo.txout)
  }

  function ReadUndo(keys: Keys, s: Bytes): (r: Option<(TxInUndo, Bytes)>) {
    match Compressor.ReadVarInt(s, 0)
    case None => None
    case Some((code, s1)) =>
      var height := code / 2;
      if height == 0 then ReadOutput(keys, code % 2 == 1, 0, 0, s1)
      else
        match Compressor.ReadVarInt(s1, 0)
        case None => None
        case Some((version, s2)) => ReadOutput(keys, code % 2 == 1, height, version, s2)
  }

  function ReadOutput(keys: Keys, coinBase: bool, height: nat, version: nat, s: Bytes): (r: Option<(TxInUndo, Bytes)>) {
    match Compressor.ReadTxOut(keys, s)
    case None => None
    case Some((txout, rest)) => Some((TxInUndo(txout, coinBase, height, version), rest))
  }

  /** Undo data reads back exactly if its version is not negative and, without a height, is zero. Otherwise only the
      version is wrong. Nothing after it is touched. */
  lemma UndoReadsBackIff(keys: Keys, undo: TxInUndo, rest: Bytes)
    requires Compressor.KeysRight(keys) && Writable(undo)
    ensures ReadUndo(keys, WriteUndo(keys, undo) + rest) == Some((StoredUndo(undo), rest))
    ensures ReadUndo(keys, WriteUndo(keys, undo) + rest) == Some((undo, rest)) <==>
              (undo.height > 0 && undo.version >= 0) || (undo.height == 0 && undo.version == 0)
  {
    hide Compressor.KeysRight, Compressor.VarInt, Compressor.IntForm, Compressor.ReadVarInt, Compressor.WriteTxOut, Compressor.ReadTxOut, Compressor.Storable;
    var code := HeightCode(undo.height, undo.coinBase);
    RemainderUnique(if undo.coinBase then 1 else 0, undo.height, 2, code);
    var out := Compressor.WriteTxOut(keys, undo.txout);
    var version := if undo.height > 0 then Compressor.IntForm(undo.version) else [];
    assert WriteUndo(keys, undo) + rest == Compressor.VarInt(code) + (version + (out + rest));
    Compressor.ReadWriteVarInt(code, version + (out + rest));
    Compressor.ReadWriteTxOut(keys, undo.txout, rest);
    if undo.height > 0 {
      Compressor.ReadWriteInt(undo.version, out + rest);
    } else {
      assert version + (out + rest) == out + rest;
    }
  }

  /** What is recorded when an output is spent survives being written exactly if other outputs of its transaction are
      left or the version is not negative. */
  lemma RecordedReadsBackIff(keys: Keys, u: Utxo, o: OutPoint, rest: Bytes)
    requires Compressor.KeysRight(keys) && AllRestorable(u) && Available(u, o) && Compressor.Storable(u[o.hash].vout[o.n])
    ensures Writable(UndoFor(u, o))
    ensures ReadUndo(keys, WriteUndo(keys, UndoFor(u, o)) + rest) == Some((StoredUndo(UndoFor(u, o)), rest))
    ensures ReadUndo(keys, WriteUndo(keys, UndoFor(u, o)) + rest) == Some((UndoFor(u, o), rest)) <==>
              o.hash in SpendOne(u, o) || u[o.hash].version >= 0
  {
    hide Compressor.KeysRight, Compressor.Storable, ReadUndo, WriteUndo;
    UndoReadsBackIff(keys, UndoFor(u, o), rest);
  }

  /** The version that is lost first: minus one reads back as 127. */
  lemma MinusOneLost(keys: Keys, txout: TxOut, rest: Bytes)
    requires Compressor.KeysRight(keys) && Compressor.Storable(txout)
    ensures var undo := TxInUndo(txout, false, 5, -1);
            ReadUndo(keys, WriteUndo(keys, undo) + rest) == Some((undo.(version := 127), rest))
  {
    hide Compressor.KeysRight, Compressor.Storable, ReadUndo, WriteUndo;
    UndoReadsBackIff(keys, TxInUndo(txout, false, 5, -1), rest);
  }
}
