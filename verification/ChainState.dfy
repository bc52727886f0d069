/**
 The chain-state machine: connecting, disconnecting and reorganising the active chain.

 The reference is `Replay`: apply the blocks on the path from the root to a block, one after
 the other, to an empty set of coins. The cached state that is patched forwards and backwards
 with recorded undo data is shown to equal the replay of the active chain after every step.
 */
module ChainState {
  import opened Basics
  import opened Coins
  import opened CoinsCache
  import opened BlockEffects
  import opened Money
  import opened BlockConnect
  import opened BlockTree

  type BlockUndo = seq<seq<TxInUndo>>
  type BlockStore = map<BlockIndex, Block>

  // --- the reference ---------------------------------------------------------------------

  /** Block data is there for a block and all its ancestors, and fits the index. */
  ghost predicate Stored(b: BlockIndex, blocks: BlockStore)
    decreases b.nHeight
  {
    && b.Rooted() && b in blocks
    && blocks[b].hash == b.hash && b.hash != 0
    && CollisionFree(blocks[b].vtx) && Undoable(blocks[b].vtx, b.nHeight)
    && (b.pprev != null ==> b.pprev.nHeight < b.nHeight && Stored(b.pprev, blocks))
  }

  lemma StoredLinked(b: BlockIndex, blocks: BlockStore)
    requires Stored(b, blocks)
    ensures b.Rooted() && b in blocks && b.hash != 0
    ensures b.pprev != null ==> b.pprev.Linked() && b.pprev.nHeight + 1 == b.nHeight && Stored(b.pprev, blocks)
  {
  }

  /** The coins after a block: replay everything from the root. */
  ghost function Replay(b: BlockIndex, blocks: BlockStore): (u: Utxo)
    requires Stored(b, blocks)
    decreases b.nHeight, 1
  {
    ApplyTxs(ReplayParent(b, blocks), blocks[b].vtx, b.nHeight)
  }

  /** The coins a block is connected to. */
  ghost function ReplayParent(b: BlockIndex, blocks: BlockStore): (u: Utxo)
    requires Stored(b, blocks)
    decreases b.nHeight, 0
  {
    if b.pprev == null then map[] else Replay(b.pprev, blocks)
  }

  /** Replay is the fold over the list of blocks from the root. */
  function Fold(bs: seq<Block>): (u: Utxo) {
    if bs == [] then map[] else ApplyTxs(Fold(bs[..|bs| - 1]), bs[|bs| - 1].vtx, |bs| - 1)
  }

  ghost function BlockList(b: BlockIndex, blocks: BlockStore): (bs: seq<Block>)
    requires Stored(b, blocks)
    ensures |bs| == b.nHeight + 1
    decreases b.nHeight
  {
    if b.pprev == null then [blocks[b]] else BlockList(b.pprev, blocks) + [blocks[b]]
  }

  lemma FoldStep(bs: seq<Block>, last: Block)
    ensures Fold(bs + [last]) == ApplyTxs(Fold(bs), last.vtx, |bs|)
  {
    assert (bs + [last])[..|bs|] == bs;
  }

  lemma {:induction false} ReplayIsFold(b: BlockIndex, blocks: BlockStore)
    requires Stored(b, blocks)
    ensures Replay(b, blocks) == Fold(BlockList(b, blocks))
    decreases b.nHeight
  {
    hide ApplyTxs, Fold, CollisionFree, Undoable;
    if b.pprev == null {
      FoldStep([], blocks[b]);
      assert [] + [blocks[b]] == [blocks[b]];
      EmptyFold();
    } else {
      ReplayIsFold(b.pprev, blocks);
      FoldStep(BlockList(b.pprev, blocks), blocks[b]);
    }
  }

  lemma EmptyFold()
    ensures Fold([]) == map[]
  {
  }

  /** Block data that arrives later does not change an earlier replay. */
  lemma {:induction false} ReplayStable(b: BlockIndex, blocks: BlockStore, more: BlockStore)
    requires Stored(b, blocks) && forall c :: c in blocks ==> c in more && more[c] == blocks[c]
    ensures Stored(b, more) && Replay(b, more) == Replay(b, blocks) && ReplayParent(b, more) == ReplayParent(b, blocks)
    decreases b.nHeight
  {
    if b.pprev != null {
      ReplayStable(b.pprev, blocks, more);
    }
  }

  // --- money -----------------------------------------------------------------------------

  datatype Params = Params(genesisHash: BlockHash, testnet: bool)

  /** What the block right after the genesis block may create. */
  function Grant(b: BlockIndex, params: Params): (g: int)
    ensures 0 <= g <= MAX_MONEY
  {
    FirstGrant(b.nHeight, b.pprev != null && b.pprev.hash == params.genesisHash, params.testnet)
  }

  /** A block and all its ancestors obey the rules where they stand. */
  ghost predicate Connected(b: BlockIndex, blocks: BlockStore, params: Params)
    requires Stored(b, blocks)
    decreases b.nHeight
  {
    && RulesHold(ReplayParent(b, blocks), blocks[b].vtx, b.nHeight, Grant(b, params))
    && (b.pprev != null ==> Connected(b.pprev, blocks, params))
  }

  /** Whether a block is accepted on the replay of its parent. */
  ghost predicate Verdict(b: BlockIndex, blocks: BlockStore, params: Params, answers: Answers)
    requires Stored(b, blocks)
  {
    Accepts(ReplayParent(b, blocks), blocks[b].vtx, b.nHeight, Grant(b, params), answers)
  }

  lemma NothingSpendable(tx: Tx, height: int)
    requires forall i :: 0 <= i < |tx.vout| ==> IsUnspendable(tx.vout[i].script)
    ensures FromTx(tx, height).IsPruned()
  {
    assert forall i :: 0 <= i < |tx.vout| ==> WithoutUnspendable(tx.vout)[i] == NullTxOut;
  }

  /** A genesis block with a single coinbase that creates nothing spendable obeys the rules on no coins at all. */
  lemma GenesisConnects(vtx: seq<Tx>)
    requires |vtx| == 1 && BlockShape(vtx) && ValueOut(vtx[0].vout) == 0
    requires forall i :: 0 <= i < |vtx[0].vout| ==> IsUnspendable(vtx[0].vout[i].script)
    ensures RulesHold(map[], vtx, 0, 0) && Undoable(vtx, 0) && CollisionFree(vtx)
    ensures ApplyTxs(map[], vtx, 0) == map[]
  {
    hide FromTx;
    assert vtx[..0] == [];
    NothingSpendable(vtx[0], 0);
  }

  /** On every chain of blocks that obey the rules the money never exceeds the maximum, it only
      grows at height one, and all coins can be restored by undo data. */
  lemma {:induction false} ConnectedConserves(b: BlockIndex, blocks: BlockStore, params: Params)
    requires Stored(b, blocks) && Connected(b, blocks, params)
    ensures AllRestorable(Replay(b, blocks))
    ensures 0 <= Total(Replay(b, blocks)) <= (if b.nHeight == 0 then 0 else MAX_MONEY)
    ensures Total(Replay(b, blocks)) <= Total(ReplayParent(b, blocks)) + Grant(b, params)
    decreases b.nHeight
  {
    var before := ReplayParent(b, blocks);
    if b.pprev == null {
      assert ValueMap(map[]) == map[];
      assert AllRestorable(before);
    } else {
      ConnectedConserves(b.pprev, blocks, params);
    }
    AcceptedEffect(before, blocks[b].vtx, b.nHeight, Grant(b, params));
    TotalNonNegative(Replay(b, blocks));
  }

  lemma {:induction false} ConnectedStable(b: BlockIndex, blocks: BlockStore, more: BlockStore, params: Params)
    requires Stored(b, blocks) && forall c :: c in blocks ==> c in more && more[c] == blocks[c]
    requires Connected(b, blocks, params)
    ensures Stored(b, more) && Connected(b, more, params)
    decreases b.nHeight
  {
    ReplayStable(b, blocks, more);
    if b.pprev != null {
      ConnectedStable(b.pprev, blocks, more, params);
    }
  }

  // --- the chain as a list of blocks --------------------------------------------------------

  /** What the next block may create. */
  function NextGrant(bs: seq<Block>, params: Params): int {
    FirstGrant(|bs|, bs != [] && bs[|bs| - 1].hash == params.genesisHash, params.testnet)
  }

  predicate Fits(block: Block, height: int) { CollisionFree(block.vtx) && Undoable(block.vtx, height) }

  /** Every block obeys the rules on the replay of those before it. */
  predicate Obeys(bs: seq<Block>, params: Params) {
    bs == [] ||
    var init, last := bs[..|bs| - 1], bs[|bs| - 1];
    && Obeys(init, params) && Fits(last, |init|)
    && RulesHold(Fold(init), last.vtx, |init|, NextGrant(init, params))
  }

  lemma ObeysStep(bs: seq<Block>, params: Params, block: Block)
    ensures Obeys(bs + [block], params) <==>
              Obeys(bs, params) && Fits(block, |bs|) && RulesHold(Fold(bs), block.vtx, |bs|, NextGrant(bs, params))
  {
    hide Fits, RulesHold, Fold;
    assert (bs + [block])[..|bs|] == bs;
  }

  lemma {:induction false} ObeysRestorable(bs: seq<Block>, params: Params)
    requires Obeys(bs, params)
    ensures AllRestorable(Fold(bs))
    decreases |bs|
  {
    hide AllRestorable, RulesHold, CollisionFree, Undoable, ApplyTxs;
    if bs == [] {
      NoneRestorable();
    } else {
      var init, last := bs[..|bs| - 1], bs[|bs| - 1];
      ObeysRestorable(init, params);
      AcceptedEffect(Fold(init), last.vtx, |init|, NextGrant(init, params));
    }
  }

  lemma NoneRestorable()
    ensures AllRestorable(map[])
  {
  }

  /** The blocks on the path of a block whose path obeys the rules. */
  lemma {:induction false} ConnectedObeys(b: BlockIndex, blocks: BlockStore, params: Params)
    requires Stored(b, blocks) && Connected(b, blocks, params)
    ensures Obeys(BlockList(b, blocks), params)
    decreases b.nHeight
  {
    hide RulesHold, CollisionFree, Undoable, Fold, ApplyTxs, Obeys;
    if b.pprev == null {
      EmptyFold();
      EmptyObeys(params);
      ObeysStep([], params, blocks[b]);
      assert [] + [blocks[b]] == [blocks[b]];
    } else {
      ConnectedObeys(b.pprev, blocks, params);
      ReplayIsFold(b.pprev, blocks);
      ObeysStep(BlockList(b.pprev, blocks), params, blocks[b]);
      LastListed(b.pprev, blocks);
    }
  }

  lemma EmptyObeys(params: Params)
    ensures Obeys([], params)
  {
  }

  lemma LastListed(b: BlockIndex, blocks: BlockStore)
    requires Stored(b, blocks)
    ensures var bs := BlockList(b, blocks); bs[|bs| - 1] == blocks[b] && bs[|bs| - 1].hash == b.hash
  {
    hide CollisionFree, Undoable;
  }

  // --- undo data -------------------------------------------------------------------------

  /** Every undo record is the one the replay of its block's parent calls for. */
  ghost predicate UndoRight(undo: map<BlockIndex, BlockUndo>, blocks: BlockStore) {
    forall b :: b in undo ==>
      Stored(b, blocks) && undo[b] == BlockUndoFor(ReplayParent(b, blocks), blocks[b].vtx, b.nHeight)
  }

  /** A block and all its ancestors have undo records. */
  ghost predicate HasUndo(b: BlockIndex, undo: map<BlockIndex, BlockUndo>)
    requires b.Linked()
    decreases b.nHeight
  {
    b in undo && (b.pprev != null ==> HasUndo(b.pprev, undo))
  }

  lemma {:induction false} HasUndoGrows(b: BlockIndex, undo: map<BlockIndex, BlockUndo>, more: map<BlockIndex, BlockUndo>)
    requires b.Linked() && undo.Keys <= more.Keys && HasUndo(b, undo)
    ensures HasUndo(b, more)
    decreases b.nHeight
  {
    if b.pprev != null {
      HasUndoGrows(b.pprev, undo, more);
    }
  }

  lemma UndoRightStable(undo: map<BlockIndex, BlockUndo>, blocks: BlockStore, more: BlockStore)
    requires UndoRight(undo, blocks) && forall c :: c in blocks ==> c in more && more[c] == blocks[c]
    ensures UndoRight(undo, more)
  {
    forall b | b in undo
      ensures Stored(b, more) && undo[b] == BlockUndoFor(ReplayParent(b, more), more[b].vtx, b.nHeight)
    {
      ReplayStable(b, blocks, more);
    }
  }

  /** Write an undo record unless there is one. */
  function WithRecord(undo: map<BlockIndex, BlockUndo>, b: BlockIndex, blockUndo: BlockUndo): (r: map<BlockIndex, BlockUndo>)
    ensures r.Keys == undo.Keys + {b}
  {
    if b in undo then undo else undo[b := blockUndo]
  }

  /** Writing a missing record keeps all records right. */
  lemma RecordAdded(undo: map<BlockIndex, BlockUndo>, blocks: BlockStore, b: BlockIndex, blockUndo: BlockUndo)
    requires UndoRight(undo, blocks) && Stored(b, blocks)
    requires b.pprev != null ==> b.pprev.Linked() && HasUndo(b.pprev, undo)
    requires blockUndo == BlockUndoFor(ReplayParent(b, blocks), blocks[b].vtx, b.nHeight)
    ensures UndoRight(WithRecord(undo, b, blockUndo), blocks) && HasUndo(b, WithRecord(undo, b, blockUndo))
  {
    hide CollisionFree, Undoable, BlockUndoFor, Replay;
    if b.pprev != null {
      HasUndoGrows(b.pprev, undo, WithRecord(undo, b, blockUndo));
    }
  }

  /** Coins and best block are the right ones for a tip: the coins are the replay of its chain, and
      every block on that chain can be undone. */
  ghost predicate Stands(undo: map<BlockIndex, BlockUndo>, blocks: BlockStore, params: Params,
                         tip: BlockIndex?, coins: Utxo, best: BlockHash)
  {
    && UndoRight(undo, blocks)
    && (tip == null ==> coins == map[] && best == 0)
    && (tip != null ==>
          && Stored(tip, blocks) && Connected(tip, blocks, params) && HasUndo(tip, undo)
          && coins == Replay(tip, blocks) && best == tip.hash)
  }

  lemma StandsStable(undo: map<BlockIndex, BlockUndo>, blocks: BlockStore, more: BlockStore, params: Params,
                     tip: BlockIndex?, coins: Utxo, best: BlockHash)
    requires Stands(undo, blocks, params, tip, coins, best)
    requires forall c :: c in blocks ==> c in more && more[c] == blocks[c]
    ensures Stands(undo, more, params, tip, coins, best)
  {
    UndoRightStable(undo, blocks, more);
    if tip != null {
      ConnectedStable(tip, blocks, more, params);
      ReplayStable(tip, blocks, more);
    }
  }

  /** The same for a block that was just applied, with the undo data that came out of it. */
  ghost predicate Applied(undo: map<BlockIndex, BlockUndo>, blocks: BlockStore, params: Params,
                          b: BlockIndex, blockUndo: BlockUndo, coins: Utxo, best: BlockHash)
  {
    && UndoRight(undo, blocks)
    && Stored(b, blocks) && Connected(b, blocks, params)
    && (b.pprev != null ==> b.pprev.Linked() && HasUndo(b.pprev, undo))
    && blockUndo == BlockUndoFor(ReplayParent(b, blocks), blocks[b].vtx, b.nHeight)
    && coins == Replay(b, blocks) && best == b.hash
  }

  lemma AppliedStands(undo: map<BlockIndex, BlockUndo>, blocks: BlockStore, params: Params, b: BlockIndex,
                      blockUndo: BlockUndo, coins: Utxo, best: BlockHash)
    requires Applied(undo, blocks, params, b, blockUndo, coins, best)
    ensures Stands(WithRecord(undo, b, blockUndo), blocks, params, b, coins, best) && b.Rooted()
  {
    StoredLinked(b, blocks);
    RecordAdded(undo, blocks, b, blockUndo);
  }

  /** A block accepted on the coins of its parent stands, and its parent's coins are all restorable. */
  lemma AcceptedApplies(undo: map<BlockIndex, BlockUndo>, blocks: BlockStore, params: Params, b: BlockIndex,
                        coins: Utxo, best: BlockHash, answers: Answers)
    requires Stored(b, blocks) && Stands(undo, blocks, params, b.pprev, coins, best)
    requires Accepts(coins, blocks[b].vtx, b.nHeight, Grant(b, params), answers)
    ensures Applied(undo, blocks, params, b, BlockUndoFor(coins, blocks[b].vtx, b.nHeight),
                    ApplyTxs(coins, blocks[b].vtx, b.nHeight), b.hash)
  {
    ParentCoins(undo, blocks, params, b, coins, best);
    StoredLinked(b, blocks);
    hide AllRestorable, Total, RulesHold, ApplyTxs, BlockUndoFor, UndoRight, Stored, HasUndo, Replay, Connected;
    ReplayStep(b, blocks);
    ConnectedStep(b, blocks, params);
  }

  lemma ReplayStep(b: BlockIndex, blocks: BlockStore)
    requires Stored(b, blocks)
    ensures Replay(b, blocks) == ApplyTxs(ReplayParent(b, blocks), blocks[b].vtx, b.nHeight)
  {
  }

  lemma ConnectedStep(b: BlockIndex, blocks: BlockStore, params: Params)
    requires Stored(b, blocks)
    ensures Connected(b, blocks, params) <==>
      && RulesHold(ReplayParent(b, blocks), blocks[b].vtx, b.nHeight, Grant(b, params))
      && (b.pprev != null ==> Stored(b.pprev, blocks) && Connected(b.pprev, blocks, params))
  {
    StoredLinked(b, blocks);
    hide RulesHold, ReplayParent;
  }

  lemma ParentCoins(undo: map<BlockIndex, BlockUndo>, blocks: BlockStore, params: Params, b: BlockIndex,
                    coins: Utxo, best: BlockHash)
    requires Stored(b, blocks) && Stands(undo, blocks, params, b.pprev, coins, best)
    ensures coins == ReplayParent(b, blocks)
    ensures AllRestorable(coins) && Total(coins) <= MAX_MONEY
    ensures best == if b.pprev == null then 0 else b.pprev.hash
    ensures blocks[b].hash == b.hash && CollisionFree(blocks[b].vtx) && Undoable(blocks[b].vtx, b.nHeight)
  {
    if b.pprev == null {
      assert ValueMap(map[]) == map[];
    } else {
      ConnectedConserves(b.pprev, blocks, params);
    }
  }

  /** The record on file undoes a tip: a record written when the block was first connected is
      still right, whatever was connected and disconnected since. */
  lemma TipIsUndone(undo: map<BlockIndex, BlockUndo>, blocks: BlockStore, params: Params, tip: BlockIndex,
                    coins: Utxo, best: BlockHash)
    requires Stands(undo, blocks, params, tip, coins, best) && tip.pprev != null
    ensures tip in blocks && tip in undo && Stored(tip, blocks) && tip.pprev.Rooted() && tip.pprev.hash != 0
    ensures best == tip.hash && blocks[tip].hash == tip.hash
    ensures Disconnected(coins, blocks[tip].vtx, tip.nHeight, Some(undo[tip])) == Some(ReplayParent(tip, blocks))
    ensures Stands(undo, blocks, params, tip.pprev, ReplayParent(tip, blocks), tip.pprev.hash)
  {
    StoredLinked(tip, blocks);
    StoredLinked(tip.pprev, blocks);
    ConnectedConserves(tip.pprev, blocks, params);
    AcceptedIsUndone(ReplayParent(tip, blocks), blocks[tip].vtx, tip.nHeight, Grant(tip, params));
    hide RulesHold, ApplyTxs, BlockUndoFor, CollisionFree, Undoable, AllRestorable, Disconnected;
  }

  // --- the state -----------------------------------------------------------------------------

  class ChainStateManager {
    const params: Params
    const db: CoinsViewDB
    const coinsTip: CoinsViewCache
    const chainActive: Chain
    var blocks: BlockStore                       // the block files
    var undo: map<BlockIndex, BlockUndo>         // the undo files

    ghost predicate Shaped() {
      && coinsTip.Layered() && coinsTip.base == null && coinsTip.db == db
      && this !in coinsTip.Repr() && chainActive as object !in coinsTip.Repr()
      && coinsTip.BaseRepr == {db} && db as object != this && coinsTip as object != this
    }

    /** The coins are the replay of the active chain, the best block is its tip, and every block
        on it can be undone. */
    ghost predicate Valid()
      reads this, chainActive, coinsTip, coinsTip.BaseRepr
    {
      Shaped() && coinsTip.Valid() && chainActive.Valid()
      && Stands(undo, blocks, params, chainActive.Tip(), coinsTip.View(), coinsTip.Best())
    }

    /** What every reachable state promises: the coins are the naive fold of the active chain's
        blocks, the best block is the tip, and there is never more money than the maximum. */
    lemma Promise()
      requires Valid()
      ensures chainActive.Tip() == null ==> coinsTip.View() == map[] && coinsTip.Best() == 0
      ensures chainActive.Tip() != null ==>
        && Stored(chainActive.Tip(), blocks)
        && coinsTip.View() == Fold(BlockList(chainActive.Tip(), blocks))
        && coinsTip.Best() == chainActive.Tip().hash
      ensures 0 <= Total(coinsTip.View()) <= MAX_MONEY
    {
      if chainActive.Tip() == null {
        assert ValueMap(map[]) == map[];
      } else {
        ReplayIsFold(chainActive.Tip(), blocks);
        ConnectedConserves(chainActive.Tip(), blocks, params);
      }
    }

    constructor (params: Params)
      ensures Valid() && fresh(chainActive) && fresh(coinsTip) && fresh(db) && this.params == params
      ensures blocks == map[] && undo == map[] && chainActive.Tip() == null
    {
      this.params := params;
      var d := new CoinsViewDB();
      var c := new CoinsViewCache.OnDatabase(d);
      var a := new Chain();
      db, coinsTip, chainActive := d, c, a;
      blocks, undo := map[], map[];
    }

    /** Block data arrives and is written to the block files. */
    method StoreBlock(b: BlockIndex, block: Block)
      requires Valid() && b !in blocks && b.Rooted()
      requires block.hash == b.hash && b.hash != 0 && CollisionFree(block.vtx) && Undoable(block.vtx, b.nHeight)
      modifies this`blocks
      ensures Valid() && blocks == old(blocks)[b := block]
      ensures coinsTip.View() == old(coinsTip.View()) && chainActive.Tip() == old(chainActive.Tip())
    {
      hide Stands, CollisionFree, Undoable, Chain.Valid, BlockIndex.Linked, BlockIndex.SkipsRight;
      hide CoinsViewCache.View, CoinsViewCache.Valid, CoinsViewCache.Layered, CoinsViewCache.Best;
      StandsStable(undo, blocks, blocks[b := block], params, chainActive.Tip(), coinsTip.View(), coinsTip.Best());
      blocks := blocks[b := block];
    }

    /** The verdict on a block that extends the tip. */
    ghost predicate WouldAccept(b: BlockIndex, answers: Answers)
      requires Shaped() && b in blocks
      reads this, coinsTip, coinsTip.BaseRepr
    {
      Accepts(coinsTip.View(), blocks[b].vtx, b.nHeight, Grant(b, params), answers)
    }

    /** Write the coin cache to the database when it has grown too large. */
    method FlushIfNeeded(needed: bool)
      requires Shaped() && coinsTip.Valid()
      modifies coinsTip, coinsTip.BaseRepr
      ensures coinsTip.Valid() && coinsTip.View() == old(coinsTip.View())
      ensures coinsTip.hashBlock == old(coinsTip.hashBlock)
      ensures coinsTip.hashBlock != 0 ==> coinsTip.Best() == coinsTip.hashBlock
      ensures needed ==> coinsTip.cacheCoins == map[]
      ensures !needed ==> coinsTip.cacheCoins == old(coinsTip.cacheCoins)
    {
      if needed {
        coinsTip.Flush();
      }
    }

    /** Apply one block to the coins through a cache of its own; a rejected block leaves no trace. */
    method ApplyBlock(pindexNew: BlockIndex, answers: Answers, flush: bool) returns (ok: bool, blockUndo: BlockUndo)
      requires Valid() && Stored(pindexNew, blocks) && pindexNew.pprev == chainActive.Tip()
      modifies coinsTip, coinsTip.BaseRepr
      ensures coinsTip.Valid() && (ok <==> old(WouldAccept(pindexNew, answers)))
      ensures ok ==> Applied(undo, blocks, params, pindexNew, blockUndo, coinsTip.View(), coinsTip.Best())
      ensures !ok ==> coinsTip.View() == old(coinsTip.View()) && coinsTip.Best() == old(coinsTip.Best())
    {
      hide Stored, Applied, Stands, AllRestorable, Total, Chain.Valid, Grant, Accepts, ReplayParent, CollisionFree, Undoable;
      hide CoinsViewCache.View, CoinsViewCache.Best, CoinsViewCache.Valid, CoinsViewCache.Layered;
      ghost var coins, best := coinsTip.View(), coinsTip.Best();
      ParentCoins(undo, blocks, params, pindexNew, coins, best);
      StoredLinked(pindexNew, blocks);
      if WouldAccept(pindexNew, answers) {
        AcceptedApplies(undo, blocks, params, pindexNew, coins, best, answers);
      }
      var hashPrevBlock := if pindexNew.pprev == null then 0 else pindexNew.pprev.hash;
      ok, blockUndo := ConnectThrough(coinsTip, blocks[pindexNew], pindexNew.nHeight, hashPrevBlock,
                                      Grant(pindexNew, params), answers);
      if ok {
        FlushIfNeeded(flush);
      }
    }

    /** Record the undo data of a block just applied, unless there is a record. */
    method RecordUndo(b: BlockIndex, blockUndo: BlockUndo)
      requires Shaped() && Applied(undo, blocks, params, b, blockUndo, coinsTip.View(), coinsTip.Best())
      modifies this`undo
      ensures b.Rooted() && Stands(undo, blocks, params, b, coinsTip.View(), coinsTip.Best())
      ensures undo == if b in old(undo) then old(undo) else old(undo)[b := blockUndo]
      ensures undo.Keys == old(undo).Keys + {b}
    {
      hide Stands, Applied, CoinsViewCache.View, CoinsViewCache.Layered, CoinsViewCache.Best;
      AppliedStands(undo, blocks, params, b, blockUndo, coinsTip.View(), coinsTip.Best());
      undo := WithRecord(undo, b, blockUndo);
    }

    /** Move the active chain to a block that the coins already stand for. */
    method UpdateTip(tip: BlockIndex)
      requires Shaped() && chainActive.Valid() && coinsTip.Valid() && tip.Rooted()
      requires Stands(undo, blocks, params, tip, coinsTip.View(), coinsTip.Best())
      modifies chainActive
      ensures Valid() && chainActive.Tip() == tip
    {
      hide Stands, CoinsViewCache.View, CoinsViewCache.Valid, CoinsViewCache.Layered, CoinsViewCache.Best;
      chainActive.SetTip(tip);
    }

    /** Make a block that was just applied the tip. */
    method Advance(b: BlockIndex, blockUndo: BlockUndo)
      requires Shaped() && chainActive.Valid() && coinsTip.Valid()
      requires Applied(undo, blocks, params, b, blockUndo, coinsTip.View(), coinsTip.Best())
      modifies this`undo, chainActive
      ensures Valid() && chainActive.Tip() == b && undo.Keys == old(undo).Keys + {b}
    {
      hide Stands, Applied, Chain.Valid, CoinsViewCache.View, CoinsViewCache.Valid, CoinsViewCache.Layered, CoinsViewCache.Best;
      RecordUndo(b, blockUndo);
      UpdateTip(b);
    }

    /** Connect a block to the tip. The verdict is exact; an undo record is written only if there
        is none yet. */
    method ConnectTip(pindexNew: BlockIndex, answers: Answers, flush: bool) returns (ok: bool)
      requires Valid() && Stored(pindexNew, blocks) && pindexNew.pprev == chainActive.Tip()
      modifies this`undo, chainActive, coinsTip, coinsTip.BaseRepr
      ensures Valid()
      ensures ok <==> old(WouldAccept(pindexNew, answers))
      ensures ok ==> chainActive.Tip() == pindexNew && undo.Keys == old(undo).Keys + {pindexNew}
      ensures !ok ==> unchanged(chainActive, this`undo) && coinsTip.View() == old(coinsTip.View())
      ensures !ok ==> !WouldAccept(pindexNew, answers)
    {
      hide Stored, Accepts, Stands, Applied, Chain.Valid;
      hide CoinsViewCache.View, CoinsViewCache.Valid, CoinsViewCache.Layered, CoinsViewCache.Best;
      StoredLinked(pindexNew, blocks);
      var blockUndo;
      ok, blockUndo := ApplyBlock(pindexNew, answers, flush);
      if ok {
        Advance(pindexNew, blockUndo);
      }
    }

    /** Take the tip's block out of the coins; its undo data always fits. */
    method UnapplyBlock(flush: bool) returns (ok: bool)
      requires Valid() && chainActive.Tip() != null && chainActive.Tip().pprev != null
      modifies coinsTip, coinsTip.BaseRepr
      ensures ok && coinsTip.Valid() && chainActive.Tip().pprev.Rooted()
      ensures Stands(undo, blocks, params, chainActive.Tip().pprev, coinsTip.View(), coinsTip.Best())
    {
      var pindexDelete: BlockIndex := chainActive.Tip();
      TipIsUndone(undo, blocks, params, pindexDelete, coinsTip.View(), coinsTip.Best());
      hide Stored, ReplayParent, Disconnected, Chain.Valid, Stands;
      hide CoinsViewCache.View, CoinsViewCache.Best, CoinsViewCache.Valid, CoinsViewCache.Layered;
      var found := if pindexDelete in undo then Some(undo[pindexDelete]) else None;
      ok := DisconnectThrough(coinsTip, blocks[pindexDelete], pindexDelete.nHeight, pindexDelete.pprev.hash, found);
      assert ok;
      FlushIfNeeded(flush);
    }

    /** Disconnect the tip. The undo data on file always fits, so this never fails. */
    method DisconnectTip(flush: bool) returns (ok: bool)
      requires Valid() && chainActive.Tip() != null && chainActive.Tip().pprev != null
      modifies chainActive, coinsTip, coinsTip.BaseRepr
      ensures ok && Valid()
      ensures chainActive.Tip() == old(chainActive.Tip()).pprev
    {
      hide Stands, Chain.Valid;
      hide CoinsViewCache.View, CoinsViewCache.Valid, CoinsViewCache.Layered, CoinsViewCache.Best;
      var pindexDelete: BlockIndex := chainActive.Tip();
      ok := UnapplyBlock(flush);
      UpdateTip(pindexDelete.pprev);
    }

    /** The state is right and the tip is the ancestor of a target at a given height; height -1
        stands for no tip. */
    ghost predicate StandsAt(target: BlockIndex, height: int)
      requires target.Linked()
      reads this, chainActive, coinsTip, coinsTip.BaseRepr
    {
      && Valid() && Stored(target, blocks) && -1 <= height <= target.nHeight
      && chainActive.Tip() == if height == -1 then null else target.Ancestor(height)
    }

    /** Disconnect blocks until the tip is the fork point, which is on the chain. */
    method DisconnectTo(fork: BlockIndex?, flushAt: BlockIndex -> bool)
      requires Valid() && (fork != null ==> chainActive.Contains(fork))
      requires fork == null ==> chainActive.Tip() == null
      modifies chainActive, coinsTip, coinsTip.BaseRepr
      ensures Valid() && chainActive.Tip() == fork
    {
      hide Stands, CoinsViewCache.View, CoinsViewCache.Valid, CoinsViewCache.Layered, CoinsViewCache.Best;
      if fork == null {
        return;
      }
      while chainActive.Tip() != null && chainActive.Tip() != fork
        invariant Valid() && chainActive.Contains(fork)
        decreases |chainActive.vChain|
      {
        ghost var tip: BlockIndex := chainActive.Tip();
        ForkStaysBelow(fork, tip);
        var ok := DisconnectTip(flushAt(chainActive.Tip()));
        ParentContains(fork, tip);
      }
    }

    /** A chain with another tip than one of its blocks can lose its tip and still hold the block. */
    lemma ForkStaysBelow(fork: BlockIndex, tip: BlockIndex)
      requires chainActive.Valid() && chainActive.Contains(fork) && chainActive.Tip() == tip && tip != fork
      ensures tip.Rooted() && tip.pprev != null && fork.nHeight <= tip.pprev.nHeight == tip.nHeight - 1
      ensures tip.pprev.Rooted() && tip.pprev.Ancestor(fork.nHeight) == fork && |chainActive.vChain| == tip.nHeight + 1
    {
      chainActive.ContainsIff(fork);
    }

    lemma ParentContains(fork: BlockIndex, was: BlockIndex)
      requires chainActive.Valid() && was.Rooted() && was.pprev != null && chainActive.Tip() == was.pprev
      requires was.pprev.Rooted() && fork.nHeight <= was.pprev.nHeight && was.pprev.Ancestor(fork.nHeight) == fork
      ensures chainActive.Contains(fork) && |chainActive.vChain| == was.nHeight
    {
      chainActive.ContainsIff(fork);
    }

    /** The blocks above one height up to another on the path of a target, highest first. */
    method BlocksToConnect(target: BlockIndex, nHeight: int, nTargetHeight: nat) returns (list: seq<BlockIndex>)
      requires target.Rooted() && -1 <= nHeight < nTargetHeight <= target.nHeight
      ensures |list| == nTargetHeight - nHeight
      ensures forall k :: 0 <= k < |list| ==> list[k] == target.Ancestor(nTargetHeight - k)
    {
      list := [];
      var pindexIter := target.GetAncestor(nTargetHeight);
      while pindexIter != null && pindexIter.nHeight != nHeight
        invariant |list| <= nTargetHeight - nHeight
        invariant pindexIter == if |list| == nTargetHeight + 1 then null else target.Ancestor(nTargetHeight - |list|)
        invariant forall k :: 0 <= k < |list| ==> list[k] == target.Ancestor(nTargetHeight - k)
        decreases nTargetHeight - |list|
      {
        var cur: BlockIndex := pindexIter;
        if cur.nHeight > 0 {
          target.AncestorTransitive(cur.nHeight, cur.nHeight - 1);
        }
        list := list + [cur];
        pindexIter := cur.pprev;
      }
    }

    /** Connect the next block on the way to a target; its parent is the tip. */
    method ConnectNext(target: BlockIndex, height: int, b: BlockIndex, answers: Answers, flush: bool) returns (ok: bool)
      requires target.Rooted() && StandsAt(target, height)
      requires height < target.nHeight && b == target.Ancestor(height + 1)
      modifies this`undo, chainActive, coinsTip, coinsTip.BaseRepr
      ensures StandsAt(target, if ok then height + 1 else height)
      ensures Stored(b, blocks) && (ok <==> Verdict(b, blocks, params, answers))
    {
      hide Stored, Stands, ChainStateManager.Valid, ChainStateManager.WouldAccept, Chain.Valid;
      hide BlockIndex.Linked, BlockIndex.SkipsRight, BlockIndex.Ancestor;
      hide CoinsViewCache.View, CoinsViewCache.Valid, CoinsViewCache.Layered, CoinsViewCache.Best;
      AncestorStored(target, blocks, b.nHeight);
      NextOnPath(target, height, b);
      VerdictOnTip(b, answers);
      ok := ConnectTip(b, answers, flush);
    }

    /** On the tip, a block is judged by the replay of its parent. */
    lemma VerdictOnTip(b: BlockIndex, answers: Answers)
      requires Valid() && Stored(b, blocks) && b.pprev == chainActive.Tip()
      ensures Shaped() && WouldAccept(b, answers) == Verdict(b, blocks, params, answers)
    {
      hide Stands, Stored, Accepts, Chain.Valid;
      ParentCoins(undo, blocks, params, b, coinsTip.View(), coinsTip.Best());
      StoredLinked(b, blocks);
    }

    lemma NextOnPath(target: BlockIndex, height: int, b: BlockIndex)
      requires target.Rooted() && StandsAt(target, height)
      requires height < target.nHeight && b == target.Ancestor(height + 1)
      ensures b.pprev == chainActive.Tip()
    {
      hide ChainStateManager.Valid, Stored, BlockIndex.SkipsRight;
      if b.nHeight > 0 {
        target.AncestorTransitive(b.nHeight, b.nHeight - 1);
      }
    }

    /** Disconnect the active blocks that are not on the path of a target. */
    method BackToFork(target: BlockIndex, flushAt: BlockIndex -> bool) returns (height: int)
      requires Valid() && Stored(target, blocks) && target.Rooted()
      requires chainActive.vChain != [] ==> chainActive.vChain[0] == target.Ancestor(0)
      modifies chainActive, coinsTip, coinsTip.BaseRepr
      ensures StandsAt(target, height)
      ensures height >= 0 ==> old(chainActive.Contains(target.Ancestor(height)))
      ensures forall h: nat :: h <= target.nHeight && old(chainActive.Contains(target.Ancestor(h))) ==> h <= height
    {
      hide Stored, Stands;
      hide CoinsViewCache.View, CoinsViewCache.Valid, CoinsViewCache.Layered, CoinsViewCache.Best;
      var pindexFork := chainActive.FindFork(target);
      SharedRoot(target, pindexFork);
      DisconnectTo(pindexFork, flushAt);
      height := if pindexFork != null then pindexFork.nHeight else -1;
    }

    /** A chain that shares its root with a block has a fork point with it. */
    lemma SharedRoot(target: BlockIndex, fork: BlockIndex?)
      requires chainActive.Valid() && target.Rooted()
      requires chainActive.vChain != [] ==> chainActive.vChain[0] == target.Ancestor(0)
      requires forall h: nat :: h <= target.nHeight && chainActive.Contains(target.Ancestor(h)) ==> fork != null && h <= fork.nHeight
      ensures fork == null ==> chainActive.Tip() == null
    {
      if chainActive.vChain != [] {
        assert chainActive.Contains(target.Ancestor(0));
      }
    }
  }

  lemma {:induction false} AncestorStored(b: BlockIndex, blocks: BlockStore, h: nat)
    requires Stored(b, blocks) && h <= b.nHeight
    ensures b.Linked() && Stored(b.Ancestor(h), blocks)
    decreases b.nHeight
  {
    StoredLinked(b, blocks);
    if h < b.nHeight {
      AncestorStored(b.pprev, blocks, h);
    }
  }
}
