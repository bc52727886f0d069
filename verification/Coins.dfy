/**
 Transactions and the unspent remainder of a transaction's outputs.

 A `Coins` value keeps the outputs of one transaction that are still unspent. Spent
 outputs in the middle stay as null outputs; spent outputs at the end are dropped.
 */
module Coins {

  const MAX_MONEY: int := 5293522734653800
  const COIN: int := 100000000
  const OP_RETURN: nat := 0x6a

  /** A transaction hash; zero plays the null hash. */
  type Txid = nat

  type Script = seq<nat>

  /** What the block right after the genesis block may create on top of its fees. */
  function FirstGrant(nHeight: int, prevIsGenesis: bool, testnet: bool): (g: int)
    ensures 0 <= g <= MAX_MONEY
  {
    if nHeight == 1 && prevIsGenesis then (if testnet then 10000000 * COIN else MAX_MONEY) else 0
  }

  predicate MoneyRange(v: int) { 0 <= v <= MAX_MONEY }

  predicate IsUnspendable(s: Script) { |s| > 0 && s[0] == OP_RETURN }

  datatype TxOut = TxOut(value: int, script: Script) {
    predicate IsNull() { value == -1 }
  }

  const NullTxOut: TxOut := TxOut(-1, [])

  datatype OutPoint = OutPoint(hash: Txid, n: nat) {
    predicate IsNull() { hash == 0 && n == 0xffffffff }
  }

  /** A transaction with its hash; only what the coin bookkeeping looks at is kept. */
  datatype Tx = Tx(txid: Txid, version: int, vin: seq<OutPoint>, vout: seq<TxOut>) {
    predicate IsCoinBase() { |vin| == 1 && vin[0].IsNull() }
  }

  datatype Coins = Coins(coinBase: bool, vout: seq<TxOut>, height: int, version: int) {
    predicate IsPruned() { forall i :: 0 <= i < |vout| ==> vout[i].IsNull() }

    predicate IsAvailable(n: nat) { n < |vout| && !vout[n].IsNull() }

    /** No spent outputs at the end. */
    predicate IsClean() { |vout| > 0 ==> !vout[|vout| - 1].IsNull() }

    function Cleanup(): (c: Coins)
      ensures c.IsClean()
      ensures forall n: nat :: c.IsAvailable(n) == IsAvailable(n)
      ensures c.IsPruned() <==> IsPruned()
      ensures c.IsPruned() <==> c.vout == []
    {
      var c := this.(vout := Trimmed(vout));
      assert forall n: nat :: n < |c.vout| ==> c.vout[n] == vout[n];
      c
    }

    function ClearUnspendable(): (c: Coins) {
      this.(vout := WithoutUnspendable(vout)).Cleanup()
    }

    function Spend(n: nat): (r: (bool, Coins))
      ensures r.0 <==> IsAvailable(n)
      ensures !r.1.IsAvailable(n)
    {
      if n >= |vout| || vout[n].IsNull() then (false, this)
      else (true, this.(vout := vout[n := NullTxOut]).Cleanup())
    }

    /** The equality of the original: all pruned records are the same record. */
    predicate SameAs(other: Coins) {
      (IsPruned() && other.IsPruned()) || this == other
    }
  }

  const NoCoins: Coins := Coins(false, [], 0, 0)

  function FromTx(tx: Tx, height: int): (c: Coins) {
    Coins(tx.IsCoinBase(), tx.vout, height, tx.version).ClearUnspendable()
  }

  /** The outputs up to and including the last one that is not null. */
  function Trimmed(vout: seq<TxOut>): (r: seq<TxOut>)
    ensures r <= vout
    ensures |r| > 0 ==> !r[|r| - 1].IsNull()
    ensures forall i :: |r| <= i < |vout| ==> vout[i].IsNull()
  {
    if |vout| > 0 && vout[|vout| - 1].IsNull() then Trimmed(vout[..|vout| - 1]) else vout
  }

  function WithoutUnspendable(vout: seq<TxOut>): (r: seq<TxOut>)
    ensures |r| == |vout|
    ensures forall i :: 0 <= i < |r| ==> r[i] == if IsUnspendable(vout[i].script) then NullTxOut else vout[i]
  {
    seq(|vout|, i requires 0 <= i < |vout| => if IsUnspendable(vout[i].script) then NullTxOut else vout[i])
  }

  /** The popping loop of the original computes exactly the trimmed outputs. */
  method CleanupLoop(vout: seq<TxOut>) returns (r: seq<TxOut>)
    ensures r == Trimmed(vout)
  {
    r := vout;
    while |r| > 0 && r[|r| - 1].IsNull()
      invariant Trimmed(r) == Trimmed(vout)
    {
      r := r[..|r| - 1];
    }
  }

  /** Trimming is the only way to write a list as a clean list followed by nulls. */
  lemma {:induction false} TrimmedUnique(clean: seq<TxOut>, rest: seq<TxOut>)
    requires |clean| > 0 ==> !clean[|clean| - 1].IsNull()
    requires forall i :: 0 <= i < |rest| ==> rest[i].IsNull()
    ensures Trimmed(clean + rest) == clean
  {
    if rest == [] {
      assert clean + rest == clean;
    } else {
      var all := clean + rest;
      assert all[..|all| - 1] == clean + rest[..|rest| - 1];
      TrimmedUnique(clean, rest[..|rest| - 1]);
    }
  }

  lemma CleanupClean(c: Coins)
    requires c.IsClean()
    ensures c.Cleanup() == c
  {
    TrimmedUnique(c.vout, []);
    assert c.vout + [] == c.vout;
  }

  // --- memory accounting -------------------------------------------------------

  /** What an allocation really takes: nothing, or the least multiple of sixteen with room for sixteen bytes more. */
  function MallocUsage(alloc: nat): (r: nat)
    ensures alloc == 0 ==> r == 0
    ensures alloc > 0 ==> r % 16 == 0 && alloc + 16 <= r < alloc + 32
  {
    if alloc == 0 then 0 else (alloc + 31) / 16 * 16
  }

  /** Bytes held by a script beyond the 28 that are stored inline. */
  function ScriptUsage(s: Script): (r: nat)
    ensures r == 0 <==> |s| <= 28
    ensures |s| > 28 ==> r % 16 == 0 && |s| + 16 <= r < |s| + 32
  {
    if |s| <= 28 then 0 else MallocUsage(|s|)
  }

  function ScriptsUsage(vout: seq<TxOut>): nat {
    if vout == [] then 0 else ScriptUsage(vout[0].script) + ScriptsUsage(vout[1..])
  }

  function DynamicUsage(vout: seq<TxOut>): nat { MallocUsage(40 * |vout|) + ScriptsUsage(vout) }

  lemma {:induction false} ScriptsAppend(vout: seq<TxOut>, out: TxOut)
    ensures ScriptsUsage(vout + [out]) == ScriptsUsage(vout) + ScriptUsage(out.script)
    decreases |vout|
  {
    if vout != [] {
      assert (vout + [out])[1..] == vout[1..] + [out];
      ScriptsAppend(vout[1..], out);
    }
  }

  /** The loop over the outputs adds up what the vector and every script take. */
  method DynamicMemoryUsage(vout: seq<TxOut>) returns (ret: nat)
    ensures ret == DynamicUsage(vout)
    ensures forall i :: 0 <= i < |vout| && |vout[i].script| > 28 ==> ret >= 40 * |vout| + |vout[i].script| + 32
  {
    ret := MallocUsage(40 * |vout|);
    for i := 0 to |vout|
      invariant ret == MallocUsage(40 * |vout|) + ScriptsUsage(vout[..i])
      invariant forall j :: 0 <= j < i && |vout[j].script| > 28 ==> ret >= 40 * |vout| + |vout[j].script| + 32
    {
      assert vout[..i + 1] == vout[..i] + [vout[i]];
      ScriptsAppend(vout[..i], vout[i]);
      ret := ret + ScriptUsage(vout[i].script);
    }
    assert vout[..|vout|] == vout;
  }
}
