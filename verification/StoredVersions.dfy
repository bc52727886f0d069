/**
 What the files do to versions.

 Coins records and undo data lose negative versions when they are written: only the low seven bits
 are left. Here the coins of a node whose records go through its files at any time are compared
 with the naive replay of its chain: they differ in nothing but such versions, and no verdict and no
 disconnection ever notices.
 */
module StoredVersions {
  import opened Basics
  import opened Coins
  import opened CoinsCache
  import opened BlockEffects
  import opened Money
  import opened BlockConnect
  import ChainState
  import CoinsCodec
  import Compressor
  import UndoCodec

  type BlockUndo = seq<seq<TxInUndo>>

  // --- the same but for lost versions ---------------------------------------------------------------

  /** A version that is still there, or what storing leaves of it. */
  predicate Kept(v: int, w: int) { w == v || w == Compressor.StoredInt(v) }

  predicate SameCoins(c: Coins, d: Coins) { d == c.(version := d.version) && Kept(c.version, d.version) }

  predicate SameSet(u: Utxo, w: Utxo) { u.Keys == w.Keys && forall t :: t in u ==> SameCoins(u[t], w[t]) }

  /** Undo data as it is recorded, with a version only beside a height, and what is left of it. */
  predicate SameUndo(a: TxInUndo, b: TxInUndo) {
    b == a.(version := b.version) && Kept(a.version, b.version) && a.height >= 0 && (a.height == 0 ==> a.version == 0)
  }

  predicate SameUndos(a: seq<TxInUndo>, b: seq<TxInUndo>) {
    |a| == |b| && forall i :: 0 <= i < |a| ==> SameUndo(a[i], b[i])
  }

  predicate SameBlockUndo(a: BlockUndo, b: BlockUndo) {
    |a| == |b| && forall i :: 0 <= i < |a| ==> SameUndos(a[i], b[i])
  }

  // --- what the files do --------------------------------------------------------------------------------

  /** Some records go through the coin database. */
  function StoredSet(u: Utxo, s: set<Txid>): (r: Utxo)
    ensures r.Keys == u.Keys
  {
    map t | t in u :: if t in s then CoinsCodec.StoredCoins(u[t]) else u[t]
  }

  function StoredUndos(undos: seq<TxInUndo>): (r: seq<TxInUndo>)
    ensures |r| == |undos|
  {
    seq(|undos|, i requires 0 <= i < |undos| => UndoCodec.StoredUndo(undos[i]))
  }

  function StoredBlockUndo(undo: BlockUndo): (r: BlockUndo)
    ensures |r| == |undo|
  {
    seq(|undo|, i requires 0 <= i < |undo| => StoredUndos(undo[i]))
  }

  /** Storing is exact exactly if no stored record has a negative version. */
  lemma StoredExactIff(u: Utxo, s: set<Txid>)
    ensures StoredSet(u, s) == u <==> forall t :: t in u && t in s ==> u[t].version >= 0
  {
    if StoredSet(u, s) == u {
      assert forall t :: t in u && t in s ==> CoinsCodec.StoredCoins(u[t]) == StoredSet(u, s)[t];
    }
  }

  lemma StoreKeepsSame(u: Utxo, w: Utxo, s: set<Txid>)
    requires SameSet(u, w)
    ensures SameSet(u, StoredSet(w, s))
  {
  }

  lemma FilesKeepSame(a: BlockUndo, b: BlockUndo)
    requires SameBlockUndo(a, b)
    ensures SameBlockUndo(a, StoredBlockUndo(b))
  {
    forall i | 0 <= i < |a|
      ensures SameUndos(a[i], StoredUndos(b[i]))
    {
      assert SameUndos(a[i], b[i]);
    }
  }

  // --- connecting ------------------------------------------------------------------------------------------

  lemma SamePut(u: Utxo, w: Utxo, t: Txid, c: Coins, d: Coins)
    requires SameSet(u, w) && SameCoins(c, d)
    ensures SameSet(Put(u, t, c), Put(w, t, d))
  {
  }

  lemma SameSpendOne(u: Utxo, w: Utxo, o: OutPoint)
    requires SameSet(u, w)
    ensures SameSet(SpendOne(u, o), SpendOne(w, o)) && Available(u, o) == Available(w, o)
    ensures AllRestorable(u) ==> SameUndo(UndoFor(u, o), UndoFor(w, o))
  {
    if o.hash in u {
      var c, d := u[o.hash], w[o.hash];
      assert SameCoins(c, d);
      assert SameCoins(c.Spend(o.n).1, d.Spend(o.n).1);
      SamePut(u, w, o.hash, c.Spend(o.n).1, d.Spend(o.n).1);
      assert AllRestorable(u) ==> Restorable(c);
    }
  }

  lemma {:induction false} SameSpendAll(u: Utxo, w: Utxo, outs: seq<OutPoint>)
    requires SameSet(u, w)
    ensures SameSet(SpendAll(u, outs), SpendAll(w, outs))
    ensures AllRestorable(u) ==> SameUndos(UndosFor(u, outs), UndosFor(w, outs))
    decreases |outs|
  {
    hide SameSet, SameUndo, AllRestorable, SpendOne, UndoFor, Available;
    if outs != [] {
      var init, last := outs[..|outs| - 1], outs[|outs| - 1];
      SameSpendAll(u, w, init);
      SameSpendOne(SpendAll(u, init), SpendAll(w, init), last);
      if AllRestorable(u) {
        SpendAllRestorable(u, init);
      }
    }
  }

  lemma SameApplyTx(u: Utxo, w: Utxo, tx: Tx, height: int)
    requires SameSet(u, w)
    ensures SameSet(ApplyTx(u, tx, height), ApplyTx(w, tx, height))
  {
    hide SameSet, SpendAll, FromTx;
    SameSpendAll(u, w, tx.vin);
    SamePut(SpendTx(u, tx), SpendTx(w, tx), tx.txid, FromTx(tx, height), FromTx(tx, height));
  }

  lemma {:induction false} SameApplyTxs(u: Utxo, w: Utxo, vtx: seq<Tx>, height: int)
    requires SameSet(u, w)
    ensures SameSet(ApplyTxs(u, vtx, height), ApplyTxs(w, vtx, height))
    decreases |vtx|
  {
    hide SameSet, ApplyTx;
    if vtx != [] {
      SameApplyTxs(u, w, vtx[..|vtx| - 1], height);
      SameApplyTx(ApplyTxs(u, vtx[..|vtx| - 1], height), ApplyTxs(w, vtx[..|vtx| - 1], height), vtx[|vtx| - 1], height);
    }
  }

  /** The undo data recorded for a block is the same. */
  lemma {:induction false} SameRecorded(u: Utxo, w: Utxo, vtx: seq<Tx>, height: int)
    requires SameSet(u, w) && AllRestorable(u) && Undoable(vtx, height) && forall i :: 0 <= i < |vtx| ==> TxWellFormed(vtx[i])
    ensures SameBlockUndo(BlockUndoFor(u, vtx, height), BlockUndoFor(w, vtx, height))
    decreases |vtx|
  {
    hide SameSet, SameUndos, AllRestorable, TxWellFormed, ApplyTxs, UndosFor, FromTx;
    if |vtx| > 1 {
      var init, last := vtx[..|vtx| - 1], vtx[|vtx| - 1];
      SameRecorded(u, w, init, height);
      SameApplyTxs(u, w, init, height);
      ApplyTxsRestorable(u, init, height);
      SameSpendAll(ApplyTxs(u, init, height), ApplyTxs(w, init, height), last.vin);
    }
  }

  // --- verdicts --------------------------------------------------------------------------------------------

  lemma {:induction false} SameValueIn(u: Utxo, w: Utxo, outs: seq<OutPoint>)
    requires SameSet(u, w)
    ensures ValueIn(u, outs) == ValueIn(w, outs)
    decreases |outs|
  {
    if outs != [] {
      SameValueIn(u, w, outs[..|outs| - 1]);
      assert outs[|outs| - 1].hash in u ==> SameCoins(u[outs[|outs| - 1].hash], w[outs[|outs| - 1].hash]);
    }
  }

  lemma SameHaveInputs(u: Utxo, w: Utxo, outs: seq<OutPoint>)
    requires SameSet(u, w)
    ensures HaveInputs(u, outs) == HaveInputs(w, outs)
  {
    forall i | 0 <= i < |outs|
      ensures Available(u, outs[i]) == Available(w, outs[i])
    {
      SameSpendOne(u, w, outs[i]);
    }
  }

  lemma SameInput(u: Utxo, w: Utxo, vin: seq<OutPoint>, height: int, i: nat)
    requires SameSet(u, w) && HaveInputs(u, vin) && HaveInputs(w, vin) && i < |vin|
    ensures InputInRange(u, vin, height, i) == InputInRange(w, vin, height, i)
  {
    assert Available(u, vin[i]) && SameCoins(u[vin[i].hash], w[vin[i].hash]);
    SameValueIn(u, w, vin[..i + 1]);
  }

  lemma SameInputs(u: Utxo, w: Utxo, tx: Tx, height: int)
    requires SameSet(u, w)
    ensures InputsAccepted(u, tx, height) == InputsAccepted(w, tx, height)
  {
    hide SameSet, HaveInputs, InputInRange, ValueIn;
    SameHaveInputs(u, w, tx.vin);
    SameValueIn(u, w, tx.vin);
    if HaveInputs(u, tx.vin) {
      forall i | 0 <= i < |tx.vin|
        ensures InputInRange(u, tx.vin, height, i) == InputInRange(w, tx.vin, height, i)
      {
        SameInput(u, w, tx.vin, height, i);
      }
    }
  }

  lemma {:induction false} SameFees(u: Utxo, w: Utxo, vtx: seq<Tx>, height: int)
    requires SameSet(u, w)
    ensures Fees(u, vtx, height) == Fees(w, vtx, height)
    decreases |vtx|
  {
    hide SameSet, ApplyTxs, ValueIn;
    if |vtx| > 1 {
      var init, last := vtx[..|vtx| - 1], vtx[|vtx| - 1];
      SameFees(u, w, init, height);
      SameApplyTxs(u, w, init, height);
      SameValueIn(ApplyTxs(u, init, height), ApplyTxs(w, init, height), last.vin);
    }
  }

  lemma SamePrefix(u: Utxo, w: Utxo, vtx: seq<Tx>, height: int)
    requires SameSet(u, w)
    ensures PrefixAccepted(u, vtx, height, |vtx|) == PrefixAccepted(w, vtx, height, |vtx|)
  {
    hide SameSet, ApplyTxs, InputsAccepted;
    forall i | 0 < i < |vtx|
      ensures InputsAccepted(ApplyTxs(u, vtx[..i], height), vtx[i], height)
           == InputsAccepted(ApplyTxs(w, vtx[..i], height), vtx[i], height)
    {
      SameApplyTxs(u, w, vtx[..i], height);
      SameInputs(ApplyTxs(u, vtx[..i], height), ApplyTxs(w, vtx[..i], height), vtx[i], height);
    }
  }

  /** No verdict depends on a version. */
  lemma SameVerdict(u: Utxo, w: Utxo, vtx: seq<Tx>, height: int, grant: int)
    requires SameSet(u, w)
    ensures RulesHold(u, vtx, height, grant) == RulesHold(w, vtx, height, grant)
  {
    hide BlockShape, PrefixAccepted, Fees, SameCoins;
    assert Bip30(u, vtx) == Bip30(w, vtx);
    SamePrefix(u, w, vtx, height);
    SameFees(u, w, vtx, height);
  }

  // --- disconnecting ---------------------------------------------------------------------------------------

  lemma SameRestore(c: Coins, d: Coins, a: TxInUndo, b: TxInUndo, n: nat)
    requires SameCoins(c, d) && SameUndo(a, b) && RestoreOutput(c, a, n).Some?
    ensures RestoreOutput(d, b, n).Some? && SameCoins(RestoreOutput(c, a, n).value, RestoreOutput(d, b, n).value)
  {
  }

  lemma SameApplyUndo(u: Utxo, w: Utxo, a: TxInUndo, b: TxInUndo, o: OutPoint)
    requires SameSet(u, w) && SameUndo(a, b) && ApplyUndo(u, a, o).Some?
    ensures ApplyUndo(w, b, o).Some? && SameSet(ApplyUndo(u, a, o).value, ApplyUndo(w, b, o).value)
  {
    hide RestoreOutput, SameUndo;
    var c, d := Lookup(u, o.hash), Lookup(w, o.hash);
    assert SameCoins(c, d);
    SameRestore(c, d, a, b, o.n);
    var c', d' := RestoreOutput(c, a, o.n).value.Cleanup(), RestoreOutput(d, b, o.n).value.Cleanup();
    SamePut(u, w, o.hash, c', d');
  }

  lemma {:induction false} SameUndoAll(u: Utxo, w: Utxo, a: seq<TxInUndo>, b: seq<TxInUndo>, outs: seq<OutPoint>)
    requires SameSet(u, w) && SameUndos(a, b) && |a| == |b| == |outs| && UndoAll(u, a, outs).Some?
    ensures UndoAll(w, b, outs).Some? && SameSet(UndoAll(u, a, outs).value, UndoAll(w, b, outs).value)
    decreases |outs|
  {
    hide SameSet, SameUndo, ApplyUndo;
    if outs != [] {
      var n := |outs| - 1;
      SameApplyUndo(u, w, a[n], b[n], outs[n]);
      SameUndoAll(ApplyUndo(u, a[n], outs[n]).value, ApplyUndo(w, b[n], outs[n]).value, a[..n], b[..n], outs[..n]);
    }
  }

  /** The outputs of a transaction are found: a negative version is patched before they are compared. */
  lemma SameRemove(u: Utxo, w: Utxo, tx: Tx, height: int)
    requires SameSet(u, w) && RemoveTx(u, tx, height).Some?
    ensures RemoveTx(w, tx, height).Some? && SameSet(RemoveTx(u, tx, height).value, RemoveTx(w, tx, height).value)
  {
    hide FromTx, WithoutUnspendable, Trimmed;
    assert SameCoins(Lookup(u, tx.txid), Lookup(w, tx.txid));
    SamePut(u, w, tx.txid, NoCoins, NoCoins);
  }

  lemma {:induction false} SameUndoTxs(u: Utxo, w: Utxo, vtx: seq<Tx>, a: BlockUndo, b: BlockUndo, height: int)
    requires SameSet(u, w) && SameBlockUndo(a, b) && |a| == |b| == (if vtx == [] then 0 else |vtx| - 1)
    requires UndoTxs(u, vtx, a, height).Some?
    ensures UndoTxs(w, vtx, b, height).Some? && SameSet(UndoTxs(u, vtx, a, height).value, UndoTxs(w, vtx, b, height).value)
    decreases |vtx|
  {
    hide SameSet, SameUndo, RemoveTx, UndoAll;
    if vtx != [] {
      var n := |vtx| - 1;
      SameRemove(u, w, vtx[n], height);
      var v, x := RemoveTx(u, vtx[n], height).value, RemoveTx(w, vtx[n], height).value;
      if n > 0 {
        SameUndoAll(v, x, a[n - 1], b[n - 1], vtx[n].vin);
        SameUndoTxs(UndoAll(v, a[n - 1], vtx[n].vin).value, UndoAll(x, b[n - 1], vtx[n].vin).value, vtx[..n], a[..n - 1], b[..n - 1], height);
      }
    }
  }

  // --- whole runs ------------------------------------------------------------------------------------------

  /** The active chain, the coins as the node has them, and the undo files, by the chain up to a block. */
  datatype Node = Node(chain: seq<Block>, coins: Utxo, files: map<seq<Block>, BlockUndo>)

  const EmptyNode := Node([], map[], map[])

  datatype Event = Connect(block: Block, answers: Answers) | Disconnect | Store(records: set<Txid>)

  function Verdict(n: Node, params: ChainState.Params, block: Block, answers: Answers): bool {
    Accepts(n.coins, block.vtx, |n.chain|, ChainState.NextGrant(n.chain, params), answers)
  }

  /** The coins after disconnecting the tip with the data on file, if it is clean. */
  function WithoutTip(n: Node): (r: Option<Utxo>) {
    if n.chain == [] || n.chain !in n.files then None
    else Disconnected(n.coins, n.chain[|n.chain| - 1].vtx, |n.chain| - 1, Some(n.files[n.chain]))
  }

  /** A block is connected if the node accepts it, and its undo data goes to the files unless it is there; the tip is
      disconnected if that is clean; some records go through the coin database. */
  function Step(n: Node, params: ChainState.Params, e: Event): (r: Node) {
    match e
    case Connect(block, answers) =>
      if !Verdict(n, params, block, answers) then n
      else
        var longer := n.chain + [block];
        Node(longer, ApplyTxs(n.coins, block.vtx, |n.chain|),
             if longer in n.files then n.files
             else n.files[longer := StoredBlockUndo(BlockUndoFor(n.coins, block.vtx, |n.chain|))])
    case Disconnect =>
      var coins := WithoutTip(n);
      if coins.None? then n else n.(chain := n.chain[..|n.chain| - 1], coins := coins.value)
    case Store(records) => n.(coins := StoredSet(n.coins, records))
  }

  function Run(n: Node, params: ChainState.Params, es: seq<Event>): (r: Node) {
    if es == [] then n else Step(Run(n, params, es[..|es| - 1]), params, es[|es| - 1])
  }

  /** The blocks in a run fit where they are connected. */
  predicate AllFit(n: Node, params: ChainState.Params, es: seq<Event>) {
    forall i :: 0 <= i < |es| && es[i].Connect? ==> ChainState.Fits(es[i].block, |Run(n, params, es[..i]).chain|)
  }

  /** A record on file is that of the replay, but for versions. */
  predicate FileRight(k: seq<Block>, undo: BlockUndo, params: ChainState.Params) {
    && k != [] && ChainState.Obeys(k, params)
    && SameBlockUndo(BlockUndoFor(ChainState.Fold(k[..|k| - 1]), k[|k| - 1].vtx, |k| - 1), undo)
  }

  ghost predicate Sane(n: Node, params: ChainState.Params) {
    && ChainState.Obeys(n.chain, params) && SameSet(ChainState.Fold(n.chain), n.coins)
    && (forall k :: k in n.files ==> FileRight(k, n.files[k], params))
    && (forall i :: 0 < i <= |n.chain| ==> n.chain[..i] in n.files)
  }

  /** The coins after an accepted block. */
  lemma LongerCoins(n: Node, params: ChainState.Params, block: Block)
    requires Sane(n, params) && ChainState.Fits(block, |n.chain|) && RulesHold(n.coins, block.vtx, |n.chain|, ChainState.NextGrant(n.chain, params))
    ensures ChainState.Obeys(n.chain + [block], params)
    ensures SameSet(ChainState.Fold(n.chain + [block]), ApplyTxs(n.coins, block.vtx, |n.chain|))
  {
    hide RulesHold, ChainState.Fits, SameSet, FileRight, ApplyTxs, ChainState.Fold, ChainState.NextGrant, ChainState.Obeys;
    SameVerdict(ChainState.Fold(n.chain), n.coins, block.vtx, |n.chain|, ChainState.NextGrant(n.chain, params));
    ChainState.ObeysStep(n.chain, params, block);
    ChainState.FoldStep(n.chain, block);
    SameApplyTxs(ChainState.Fold(n.chain), n.coins, block.vtx, |n.chain|);
  }

  /** The undo data that goes to the files with it. */
  lemma LongerFile(n: Node, params: ChainState.Params, block: Block)
    requires Sane(n, params) && ChainState.Fits(block, |n.chain|) && RulesHold(n.coins, block.vtx, |n.chain|, ChainState.NextGrant(n.chain, params))
    ensures FileRight(n.chain + [block], StoredBlockUndo(BlockUndoFor(n.coins, block.vtx, |n.chain|)), params)
  {
    hide AllRestorable, RulesHold, ChainState.Fits, SameSet, SameBlockUndo, BlockUndoFor, ChainState.Fold, StoredBlockUndo;
    hide ChainState.NextGrant, ChainState.Obeys, Undoable;
    var u, h := ChainState.Fold(n.chain), |n.chain|;
    LongerCoins(n, params, block);
    ChainState.ObeysRestorable(n.chain, params);
    FitsMeans(n.coins, block, h, ChainState.NextGrant(n.chain, params));
    SameRecorded(u, n.coins, block.vtx, h);
    FilesKeepSame(BlockUndoFor(u, block.vtx, h), BlockUndoFor(n.coins, block.vtx, h));
    assert (n.chain + [block])[..h] == n.chain;
  }

  /** With the longest, all prefixes of a chain are on file. */
  lemma PrefixesFiled(chain: seq<Block>, block: Block, files: map<seq<Block>, BlockUndo>, more: map<seq<Block>, BlockUndo>)
    requires (forall i :: 0 < i <= |chain| ==> chain[..i] in files) && files.Keys <= more.Keys && chain + [block] in more
    ensures var longer := chain + [block]; forall i :: 0 < i <= |longer| ==> longer[..i] in more
  {
    var longer := chain + [block];
    forall i | 0 < i <= |longer|
      ensures longer[..i] in more
    {
      assert longer[..i] == if i <= |chain| then chain[..i] else longer;
    }
  }

  lemma ConnectKeeps(n: Node, params: ChainState.Params, block: Block, answers: Answers)
    requires Sane(n, params) && ChainState.Fits(block, |n.chain|) && Verdict(n, params, block, answers)
    ensures Sane(Step(n, params, Connect(block, answers)), params)
  {
    hide RulesHold, ChainState.Fits, SameSet, FileRight, ApplyTxs, BlockUndoFor, ChainState.Fold, StoredBlockUndo, ChainState.NextGrant, ChainState.Obeys;
    LongerCoins(n, params, block);
    LongerFile(n, params, block);
    PrefixesFiled(n.chain, block, n.files, Step(n, params, Connect(block, answers)).files);
  }

  lemma FitsMeans(u: Utxo, block: Block, height: int, grant: int)
    requires ChainState.Fits(block, height) && RulesHold(u, block.vtx, height, grant)
    ensures CollisionFree(block.vtx) && Undoable(block.vtx, height) && |block.vtx| > 0
    ensures forall i :: 0 <= i < |block.vtx| ==> TxWellFormed(block.vtx[i])
  {
  }

  /** Disconnecting the tip is always clean, and what comes back is the replay of the shorter chain but for versions. */
  lemma TipComesOff(n: Node, params: ChainState.Params)
    requires Sane(n, params) && n.chain != []
    ensures WithoutTip(n).Some? && SameSet(ChainState.Fold(n.chain[..|n.chain| - 1]), WithoutTip(n).value)
  {
    hide AllRestorable, RulesHold, ChainState.Fits, SameSet, ApplyTxs, BlockUndoFor, UndoTxs, ChainState.NextGrant;
    var h := |n.chain| - 1;
    var init, last := n.chain[..h], n.chain[h];
    assert n.chain[..|n.chain|] == n.chain;
    var u := ChainState.Fold(init);
    ChainState.ObeysRestorable(init, params);
    FitsMeans(u, last, h, ChainState.NextGrant(init, params));
    AcceptedIsUndone(u, last.vtx, h, ChainState.NextGrant(init, params));
    SameUndoTxs(ChainState.Fold(n.chain), n.coins, last.vtx, BlockUndoFor(u, last.vtx, h), n.files[n.chain], h);
  }

  lemma StepKeeps(n: Node, params: ChainState.Params, e: Event)
    requires Sane(n, params) && (e.Connect? ==> ChainState.Fits(e.block, |n.chain|))
    ensures Sane(Step(n, params, e), params)
  {
    hide ChainState.Fits, SameSet, ApplyTxs, FileRight, Verdict, WithoutTip, ChainState.Fold, RulesHold;
    match e
    case Connect(block, answers) =>
      if Verdict(n, params, block, answers) {
        ConnectKeeps(n, params, block, answers);
      }
    case Disconnect =>
      if n.chain != [] {
        TipComesOff(n, params);
        var init := n.chain[..|n.chain| - 1];
        assert forall i :: 0 < i <= |init| ==> init[..i] == n.chain[..i];
      } else {
        NothingToDisconnect(n);
      }
    case Store(records) => StoreKeepsSame(ChainState.Fold(n.chain), n.coins, records);
  }

  lemma NothingToDisconnect(n: Node)
    requires n.chain == []
    ensures WithoutTip(n).None?
  {
  }

  /** Every run that starts without blocks: whatever is connected, disconnected and stored, and in whichever order, the
      coins are those of the naive replay of the chain but for negative versions, and the files are right. */
  lemma {:induction false} RunSane(params: ChainState.Params, es: seq<Event>)
    requires AllFit(EmptyNode, params, es)
    ensures Sane(Run(EmptyNode, params, es), params)
    decreases |es|
  {
    hide ChainState.Fits, Sane, Step;
    if es == [] {
      EmptySane(params);
    } else {
      var k := |es| - 1;
      assert forall i :: 0 <= i < k ==> es[..k][..i] == es[..i];
      RunSane(params, es[..k]);
      StepKeeps(Run(EmptyNode, params, es[..k]), params, es[k]);
    }
  }

  lemma EmptySane(params: ChainState.Params)
    ensures Sane(EmptyNode, params)
  {
  }

  /** What that means: verdicts are those on the replay, disconnecting the tip is clean, and the coins are exactly the
      replay if no version in it is negative. */
  lemma VersionsDoNotMatter(params: ChainState.Params, es: seq<Event>, block: Block, answers: Answers)
    requires AllFit(EmptyNode, params, es)
    ensures var n := Run(EmptyNode, params, es);
            && Verdict(n, params, block, answers) == Verdict(n.(coins := ChainState.Fold(n.chain)), params, block, answers)
            && (n.chain != [] ==> WithoutTip(n).Some?)
            && ((forall t :: t in ChainState.Fold(n.chain) ==> ChainState.Fold(n.chain)[t].version >= 0) ==>
                  n.coins == ChainState.Fold(n.chain))
  {
    hide RulesHold, ChainState.Fold, AllFit, Run, WithoutTip, FileRight, ChainState.Obeys;
    var n := Run(EmptyNode, params, es);
    RunSane(params, es);
    SameVerdict(ChainState.Fold(n.chain), n.coins, block.vtx, |n.chain|, ChainState.NextGrant(n.chain, params));
    if n.chain != [] {
      TipComesOff(n, params);
    }
  }

  /** The chain of a node without files and without coins of its own, that replays the chain for every verdict. */
  function ChainAfter(params: ChainState.Params, es: seq<Event>): (chain: seq<Block>) {
    if es == [] then [] else
    var chain := ChainAfter(params, es[..|es| - 1]);
    match es[|es| - 1]
    case Connect(block, answers) =>
      if Accepts(ChainState.Fold(chain), block.vtx, |chain|, ChainState.NextGrant(chain, params), answers) then chain + [block] else chain
    case Disconnect => if chain == [] then [] else chain[..|chain| - 1]
    case Store(_) => chain
  }

  /** The active chain is that of a node that loses nothing, after every run. */
  lemma {:induction false} SameChain(params: ChainState.Params, es: seq<Event>)
    requires AllFit(EmptyNode, params, es)
    ensures Run(EmptyNode, params, es).chain == ChainAfter(params, es)
    decreases |es|
  {
    hide Accepts, ChainState.Fold, ChainState.Fits, WithoutTip, ChainState.NextGrant, Sane;
    if es != [] {
      var k := |es| - 1;
      assert forall i :: 0 <= i < k ==> es[..k][..i] == es[..i];
      SameChain(params, es[..k]);
      var n := Run(EmptyNode, params, es[..k]);
      match es[k]
      case Connect(block, answers) => VersionsDoNotMatter(params, es[..k], block, answers);
      case Disconnect =>
        if n.chain == [] {
          NothingToDisconnect(n);
        } else {
          RunSane(params, es[..k]);
          TipComesOff(n, params);
        }
      case Store(_) =>
    }
  }
}
