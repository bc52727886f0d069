/**
 Making the best chain active: candidates are chosen, blocks are disconnected and connected towards
 them, refused blocks are marked, and all that again until nothing is left to do.

 `MostWork` chooses among block index entries by their hash; `ChainState` moves the coins. Here the
 two are joined, and the loop around them is shown to end at the best block whose whole path obeys
 the rules.
 */
module ActivateChain {
  import opened Basics
  import opened BlockArrival
  import opened BlockConnect
  import opened BlockTree
  import opened MostWork
  import ChainState
  import CoinsCache

  type Entries = map<Id, BlockIndex>

  // --- candidates and good blocks -------------------------------------------------------------------

  /** Between two steps: the tip is good, good blocks are not marked, and every linked block that is not marked below
      and not worse than a good candidate is a candidate. */
  ghost predicate Steady(i: Index, linked: set<Id>, failed: set<Id>, candidates: set<Id>, best: Option<Id>, good: set<Id>, tip: Option<Id>) {
    && Known(i, linked) && good <= linked && ParentsToo(i.tree, good) && good !! failed
    && (tip.Some? ==> tip.value in good) && (best.Some? ==> best.value in good)
    && Complete(i, linked, failed, candidates, best) && Covers(i, linked, best, tip)
  }

  /** The tip may move to any good block. */
  lemma SteadyMoves(i: Index, linked: set<Id>, failed: set<Id>, candidates: set<Id>, best: Option<Id>, good: set<Id>, tip: Option<Id>, tip': Id)
      returns (best': Option<Id>)
    requires Steady(i, linked, failed, candidates, best, good, tip) && tip' in good
    ensures Steady(i, linked, failed, candidates, best', good, Some(tip'))
  {
    hide Complete, Covers, Unfailed, Rooted, ParentsToo;
    ApartUnfailed(i.tree, failed, good, tip');
    best' := TipCovered(i, linked, failed, candidates, best, tip');
  }

  /** At the start, without any block, nothing is missing. */
  lemma SteadyStarts(failed: set<Id>)
    ensures Steady(Index(map[], map[], map[], map[], 1, map[]), {}, failed, {}, None, {}, None)
  {
  }

  /** Headers and data may arrive between two activations; what they add may be good. */
  lemma SteadyArrives(i: Index, linked: set<Id>, failed: set<Id>, before: set<Id>, best: Option<Id>, good: set<Id>, tip: Option<Id>,
                      j: Index, linked': set<Id>, after: set<Id>, good': set<Id>)
    requires Steady(i, linked, failed, before, best, good, tip) && StayComplete(i, linked, before, j, linked', after, tip)
    requires good <= good' <= linked' && ParentsToo(j.tree, good') && good' !! failed
    ensures Steady(j, linked', failed, after, best, good', tip)
  {
    hide Complete, Covers, Known, ParentsToo;
  }

  /** A refused block is marked and dropped. */
  lemma SteadyRefuses(i: Index, linked: set<Id>, failed: set<Id>, candidates: set<Id>, best: Option<Id>, good: set<Id>, tip: Option<Id>, x: Id)
    requires Steady(i, linked, failed, candidates, best, good, tip) && x !in good
    ensures Steady(i, linked, failed + {x}, candidates - {x}, best, good, tip)
  {
    hide Complete, Covers, Unfailed, Rooted, ParentsToo;
    FailureCompletes(i, linked, failed, candidates, best, good, x);
  }

  /** Good blocks are usable, so that selection never marks one. */
  lemma GoodUsable(i: Index, linked: set<Id>, active: set<Id>, haveData: set<Id>, failed: set<Id>, good: set<Id>, x: Id)
    requires Right(i, linked) && linked <= haveData && good <= linked && ParentsToo(i.tree, good) && good !! failed && x in good
    ensures Rooted(i.tree) && x in i.tree && Usable(i.tree, active, failed + (i.tree.Keys - haveData), x)
  {
    hide Usable, Unfailed, Right, LinkedRight;
    RightKnown(i, linked);
    ApartUnfailed(i.tree, failed, good, x);
    UnfailedUsable(i, linked, active, haveData, failed, x);
  }

  /** What is usable above good blocks has no mark on its path. */
  lemma {:induction false} UsableUnfailed(t: Tree, active: set<Id>, bad: set<Id>, failed: set<Id>, good: set<Id>, x: Id)
    requires Rooted(t) && x in t && Usable(t, active, bad, x) && failed <= bad && active <= good && ParentsToo(t, good) && good !! failed
    ensures Unfailed(t, failed, x)
    decreases t[x].nHeight
  {
    if x in active {
      ApartUnfailed(t, failed, good, x);
    } else if t[x].pprev.Some? {
      UsableUnfailed(t, active, bad, failed, good, t[x].pprev.value);
    }
  }

  /** Selection leaves everything steady. */
  lemma SteadySelected(i: Index, linked: set<Id>, active: set<Id>, haveData: set<Id>, failed: set<Id>, more: set<Id>,
                       before: set<Id>, after: set<Id>, best: Option<Id>, good: set<Id>, tip: Option<Id>)
    requires Right(i, linked) && linked <= haveData && failed <= more && after <= before && Steady(i, linked, failed, before, best, good, tip)
    requires Rooted(i.tree)
    requires forall x :: x in before && x !in after ==> x in i.tree && !Usable(i.tree, active, failed + (i.tree.Keys - haveData), x)
    requires forall y :: y in more && y !in failed ==> y in i.tree && !Usable(i.tree, active, failed + (i.tree.Keys - haveData), y)
    ensures Steady(i, linked, more, after, best, good, tip)
  {
    hide Usable, Complete, Covers, Right, Rooted, ParentsToo;
    RightKnown(i, linked);
    SelectCompletes(i, linked, active, haveData, failed, more, before, after, best);
    forall x | x in good
      ensures x !in more
    {
      GoodUsable(i, linked, active, haveData, failed, good, x);
    }
  }

  /** No good block is better. */
  ghost predicate NoneBetter(i: Index, linked: set<Id>, good: set<Id>, x: Id)
    requires Known(i, linked) && x in linked && good <= linked
  {
    forall y :: y in good ==> Preferred(i.tree, i.nSequenceId, x, y)
  }

  /** No other good block has more work than a block, and all with as much work were linked later. */
  ghost predicate Unrivalled(t: Tree, seqIds: map<Id, nat>, good: set<Id>, x: Id) {
    && x in t && x in seqIds
    && forall y :: y in good && y != x ==>
         && y in t && y in seqIds
         && (t[y].nChainWork < t[x].nChainWork || (t[y].nChainWork == t[x].nChainWork && seqIds[x] < seqIds[y]))
  }

  /** A candidate that is not worse than any usable candidate is not worse than any good block. */
  lemma BestOfGood(i: Index, linked: set<Id>, active: set<Id>, haveData: set<Id>, failed: set<Id>, candidates: set<Id>,
                   best: Option<Id>, good: set<Id>, tip: Option<Id>, target: Id)
    requires Right(i, linked) && linked <= haveData && Steady(i, linked, failed, candidates, best, good, tip)
    requires target in candidates && Rooted(i.tree) && target in i.tree && target in i.nSequenceId
    requires forall x :: x in candidates && x in i.tree && x in i.nSequenceId && Usable(i.tree, active, failed + (i.tree.Keys - haveData), x) ==>
               Preferred(i.tree, i.nSequenceId, target, x)
    ensures target in linked && NoneBetter(i, linked, good, target)
  {
    hide Usable, Unfailed, Right, Less, Preferred, Rooted, ParentsToo;
    forall y | y in good
      ensures Preferred(i.tree, i.nSequenceId, target, y)
    {
      if y in candidates {
        GoodUsable(i, linked, active, haveData, failed, good, y);
      } else {
        ApartUnfailed(i.tree, failed, good, y);
        assert best.Some? && Less(KeyOf(i, y), KeyOf(i, best.value));
        GoodUsable(i, linked, active, haveData, failed, good, best.value);
        PreferredIff(i.tree, i.nSequenceId, target, best.value);
        PreferredIff(i.tree, i.nSequenceId, target, y);
        LessIsTotalOrder(KeyOf(i, target), KeyOf(i, y), KeyOf(i, best.value));
      }
    }
  }

  /** Without a usable candidate there is no good block. */
  lemma NoneGood(i: Index, linked: set<Id>, active: set<Id>, haveData: set<Id>, failed: set<Id>, candidates: set<Id>,
                 best: Option<Id>, good: set<Id>, tip: Option<Id>)
    requires Right(i, linked) && linked <= haveData && Steady(i, linked, failed, candidates, best, good, tip) && Rooted(i.tree)
    requires forall x :: x in candidates ==> x in i.tree && !Usable(i.tree, active, failed + (i.tree.Keys - haveData), x)
    ensures good == {} && tip.None?
  {
    hide Usable, Unfailed, Right, Less, Rooted, ParentsToo;
    if best.Some? {
      GoodUsable(i, linked, active, haveData, failed, good, best.value);
    }
    forall y | y in good
      ensures false
    {
      ApartUnfailed(i.tree, failed, good, y);
      GoodUsable(i, linked, active, haveData, failed, good, y);
    }
  }

  // --- index entries ------------------------------------------------------------------------------------

  /** An entry of the block index is the object with that hash, below the object of its parent. */
  ghost predicate Mirrored(entries: Entries, t: Tree, x: Id)
    requires x in t && x in entries
  {
    && entries[x].hash == x && entries[x].Rooted()
    && entries[x].nHeight == t[x].nHeight && entries[x].nChainWork == t[x].nChainWork
    && (t[x].pprev.None? ==> entries[x].pprev == null)
    && (t[x].pprev.Some? ==> t[x].pprev.value in entries && entries[x].pprev == entries[t[x].pprev.value])
  }

  /** All entries are such objects, the linked ones have their data, and there is one genesis block. */
  ghost predicate Tied(entries: Entries, t: Tree, linked: set<Id>, blocks: ChainState.BlockStore) {
    && Rooted(t) && (forall x :: x in t ==> x in entries && Mirrored(entries, t, x))
    && (forall x :: x in linked ==> x in t && ParentIn(t, x, linked) && ChainState.Stored(entries[x], blocks))
    && (forall x, y :: x in linked && y in linked && t[x].pprev.None? && t[y].pprev.None? ==> x == y)
  }

  /** What the outside checks say about every block. */
  type Judge = BlockIndex -> Answers

  /** A block and all its ancestors are accepted where they stand. */
  ghost predicate PathAccepted(b: BlockIndex, blocks: ChainState.BlockStore, params: ChainState.Params, judge: Judge)
    requires ChainState.Stored(b, blocks)
    decreases b.nHeight
  {
    && ChainState.Verdict(b, blocks, params, judge(b))
    && (b.pprev != null ==> PathAccepted(b.pprev, blocks, params, judge))
  }

  /** The linked blocks that the rules let the chain reach. */
  ghost function GoodBlocks(entries: Entries, t: Tree, linked: set<Id>, blocks: ChainState.BlockStore, params: ChainState.Params, judge: Judge): set<Id>
    requires Tied(entries, t, linked, blocks)
  {
    set x | x in linked && PathAccepted(entries[x], blocks, params, judge)
  }

  lemma GoodParents(entries: Entries, t: Tree, linked: set<Id>, blocks: ChainState.BlockStore, params: ChainState.Params, judge: Judge)
    requires Tied(entries, t, linked, blocks)
    ensures ParentsToo(t, GoodBlocks(entries, t, linked, blocks, params, judge))
  {
    hide ChainState.Stored, ChainState.Verdict;
    var good := GoodBlocks(entries, t, linked, blocks, params, judge);
    forall x | x in good
      ensures x in t && ParentIn(t, x, good)
    {
      assert Mirrored(entries, t, x) && ParentIn(t, x, linked);
      ChainState.StoredLinked(entries[x], blocks);
    }
  }

  /** The ancestors of a linked block are linked, and those of a good block are good. */
  lemma {:induction false} AncestorEntry(entries: Entries, t: Tree, s: set<Id>, x: Id, h: nat) returns (y: Id)
    requires Rooted(t) && ParentsToo(t, s) && x in s && (forall z :: z in t ==> z in entries && Mirrored(entries, t, z))
    requires h <= t[x].nHeight
    ensures entries[x].Linked() && h <= entries[x].nHeight && y in s && entries[y] == entries[x].Ancestor(h) && t[y].nHeight == h
    decreases t[x].nHeight
  {
    assert Mirrored(entries, t, x) && ParentIn(t, x, s);
    if h == t[x].nHeight {
      y := x;
    } else {
      y := AncestorEntry(entries, t, s, t[x].pprev.value, h);
    }
  }

  /** The next block on the way to a linked block has an entry. */
  lemma NextLinked(entries: Entries, t: Tree, linked: set<Id>, blocks: ChainState.BlockStore, target: Id, height: nat, b: BlockIndex)
    requires Tied(entries, t, linked, blocks) && target in linked && entries[target].Rooted() && height <= entries[target].nHeight
    requires b == entries[target].Ancestor(height)
    ensures b.hash in linked && b.hash in t && b.hash in entries && entries[b.hash] == b && ChainState.Stored(b, blocks)
    ensures b.pprev == (if height == 0 then null else entries[target].Ancestor(height - 1))
  {
    hide ChainState.Stored;
    assert Mirrored(entries, t, target);
    var y := AncestorEntry(entries, t, linked, target, height);
    assert Mirrored(entries, t, y);
    if height > 0 {
      entries[target].AncestorTransitive(height, height - 1);
    }
  }

  /** A block on top of a good one is good exactly if it is accepted. */
  lemma GoodNext(entries: Entries, t: Tree, linked: set<Id>, blocks: ChainState.BlockStore, params: ChainState.Params, judge: Judge, b: BlockIndex)
    requires Tied(entries, t, linked, blocks) && b.hash in linked && entries[b.hash] == b && ChainState.Stored(b, blocks)
    requires b.pprev != null ==> b.pprev.hash in GoodBlocks(entries, t, linked, blocks, params, judge) && entries[b.pprev.hash] == b.pprev
    ensures b.hash in GoodBlocks(entries, t, linked, blocks, params, judge) <==> ChainState.Verdict(b, blocks, params, judge(b))
  {
    hide ChainState.Stored, ChainState.Verdict, Mirrored;
    ChainState.StoredLinked(b, blocks);
  }

  lemma RootEntry(entries: Entries, t: Tree, linked: set<Id>, blocks: ChainState.BlockStore, b: BlockIndex)
    requires Tied(entries, t, linked, blocks) && b.hash in linked && entries[b.hash] == b
    ensures b.hash in t && (b.pprev == null ==> t[b.hash].pprev.None?)
  {
    hide ChainState.Stored;
    assert Mirrored(entries, t, b.hash);
  }

  lemma TiedMeans(entries: Entries, t: Tree, linked: set<Id>, blocks: ChainState.BlockStore, x: Id)
    requires Tied(entries, t, linked, blocks) && x in linked
    ensures x in t && x in entries && entries[x].Rooted() && ChainState.Stored(entries[x], blocks)
    ensures entries[x].hash == x && entries[x].nHeight == t[x].nHeight && entries[x].nChainWork == t[x].nChainWork
  {
    hide ChainState.Stored;
    assert Mirrored(entries, t, x);
  }

  /** All linked blocks share their lowest ancestor. */
  lemma SameRoot(entries: Entries, t: Tree, linked: set<Id>, blocks: ChainState.BlockStore, x: Id, y: Id)
    requires Tied(entries, t, linked, blocks) && x in linked && y in linked
    ensures entries[x].Linked() && entries[y].Linked() && entries[x].Ancestor(0) == entries[y].Ancestor(0)
  {
    hide ChainState.Stored, Mirrored, BlockIndex.Ancestor, BlockIndex.Linked;
    var p := AncestorEntry(entries, t, linked, x, 0);
    var q := AncestorEntry(entries, t, linked, y, 0);
  }

  /** The blocks of a chain with a good tip are good. */
  lemma ChainGood(entries: Entries, t: Tree, linked: set<Id>, blocks: ChainState.BlockStore, good: set<Id>, tip: BlockIndex, b: BlockIndex)
    requires Tied(entries, t, linked, blocks) && ParentsToo(t, good) && tip.hash in good && tip.hash in entries && entries[tip.hash] == tip
    requires tip.Linked() && b.nHeight <= tip.nHeight && tip.Ancestor(b.nHeight) == b
    ensures b.hash in good
  {
    hide ChainState.Stored, BlockIndex.Ancestor, BlockIndex.Linked;
    assert Mirrored(entries, t, tip.hash);
    var y := AncestorEntry(entries, t, good, tip.hash, b.nHeight);
    assert Mirrored(entries, t, y);
  }

  /** No block on an unmarked path is marked. */
  lemma PathUnmarked(entries: Entries, t: Tree, linked: set<Id>, blocks: ChainState.BlockStore, failed: set<Id>, x: Id, b: BlockIndex)
    requires Tied(entries, t, linked, blocks) && x in linked && Unfailed(t, failed, x)
    requires entries[x].Linked() && b.nHeight <= entries[x].nHeight && entries[x].Ancestor(b.nHeight) == b
    ensures b.hash !in failed
  {
    hide ChainState.Stored, BlockIndex.Ancestor, BlockIndex.Linked;
    var unmarked := set y | y in t && Unfailed(t, failed, y);
    assert Mirrored(entries, t, x);
    var y := AncestorEntry(entries, t, unmarked, x, b.nHeight);
    assert Mirrored(entries, t, y);
  }

  // --- one step -----------------------------------------------------------------------------------------

  ghost function TipId(tip: BlockIndex?): Option<Id> { if tip == null then None else Some(tip.hash) }

  ghost predicate OnEntry(entries: Entries, linked: set<Id>, tip: BlockIndex?) {
    tip != null ==> tip.hash in linked && tip.hash in entries && entries[tip.hash] == tip
  }

  /** What a step towards a better chain has come to. */
  datatype Progress = Going | MoreWork | Rejected(block: BlockIndex)

  /** The ancestor of a target at some height has more work than an earlier tip. */
  ghost predicate Better(target: BlockIndex, height: int, oldTip: BlockIndex?)
    requires target.Linked()
  {
    && 0 <= height <= target.nHeight
    && (oldTip != null ==> target.Ancestor(height).nChainWork > oldTip.nChainWork)
  }

  /** None of the ancestors above one height up to another has more work than an earlier tip. */
  ghost predicate NotYet(target: BlockIndex, low: int, high: int, oldTip: BlockIndex?)
    requires target.Linked()
  {
    forall h :: low < h <= high ==> !Better(target, h, oldTip)
  }

  lemma NotYetJoins(target: BlockIndex, low: int, mid: int, high: int, oldTip: BlockIndex?)
    requires target.Linked() && NotYet(target, low, mid, oldTip) && NotYet(target, mid, high, oldTip)
    ensures NotYet(target, low, high, oldTip)
  {
  }

  /** A step has stopped at an ancestor of the target: at the top, at the first one with more work than the old tip, or
      below a block that is refused. */
  ghost predicate Stopped(target: BlockIndex, blocks: ChainState.BlockStore, params: ChainState.Params, judge: Judge,
                          progress: Progress, low: int, reached: int, top: nat, oldTip: BlockIndex?)
    requires target.Linked()
  {
    && -1 <= low <= reached <= top <= target.nHeight
    && NotYet(target, low, if progress.MoreWork? then reached - 1 else reached, oldTip)
    && (progress.Going? ==> reached == top) && (progress.MoreWork? ==> low < reached && Better(target, reached, oldTip))
    && (progress.Rejected? ==>
          && reached < top && progress.block == target.Ancestor(reached + 1) && ChainState.Stored(progress.block, blocks)
          && !ChainState.Verdict(progress.block, blocks, params, judge(progress.block)))
  }

  lemma StoppedJoins(target: BlockIndex, blocks: ChainState.BlockStore, params: ChainState.Params, judge: Judge,
                     progress: Progress, low: int, from: int, reached: int, mid: nat, oldTip: BlockIndex?)
    requires target.Linked() && -1 <= low <= from && NotYet(target, low, from, oldTip)
    requires Stopped(target, blocks, params, judge, progress, from, reached, mid, oldTip)
    ensures Stopped(target, blocks, params, judge, progress, low, reached, mid, oldTip)
    ensures !progress.Going? ==> Stopped(target, blocks, params, judge, progress, low, reached, target.nHeight, oldTip)
  {
    hide Better, ChainState.Stored, ChainState.Verdict;
    NotYetJoins(target, low, from, if progress.MoreWork? then reached - 1 else reached, oldTip);
  }

  /** The linked blocks with more work than a tip. */
  function Ahead(t: Tree, linked: set<Id>, tip: BlockIndex?): set<Id> {
    set x | x in linked && x in t && (tip == null || t[x].nChainWork > tip.nChainWork)
  }

  lemma FewerAhead(t: Tree, linked: set<Id>, oldTip: BlockIndex?, tip: BlockIndex)
    requires tip.hash in linked && tip.hash in t && t[tip.hash].nChainWork == tip.nChainWork
    requires oldTip != null ==> tip.nChainWork > oldTip.nChainWork
    ensures Ahead(t, linked, tip) < Ahead(t, linked, oldTip)
  {
    assert tip.hash in Ahead(t, linked, oldTip) && tip.hash !in Ahead(t, linked, tip);
  }

  /** The mark that a step leaves. */
  function Marks(progress: Progress): set<Id> { if progress.Rejected? then {progress.block.hash} else {} }

  lemma StateApart(state: ChainState.ChainStateManager)
    requires state.Valid()
    ensures state as object !in state.coinsTip.BaseRepr && state.chainActive as object !in state.coinsTip.BaseRepr
  {
    hide ChainState.Stands, CoinsCache.CoinsViewCache.Valid, CoinsCache.CoinsViewCache.View, CoinsCache.CoinsViewCache.Best, Chain.Valid;
  }

  class ChainActivator {
    const state: ChainState.ChainStateManager
    const selector: ChainSelector
    const mapBlockIndex: Entries
    const judge: Judge
    const flushAt: BlockIndex -> bool
    ghost var best: Option<Id>      // a good candidate that is not worse than the tip

    constructor (state: ChainState.ChainStateManager, selector: ChainSelector, entries: Entries, judge: Judge, flushAt: BlockIndex -> bool,
                 ghost best: Option<Id>)
      requires state.Valid() && selector.Valid() && selector as object !in state.coinsTip.BaseRepr
      requires Tied(entries, selector.tree, selector.linked, state.blocks) && selector.linked <= selector.haveData
      requires OnEntry(entries, selector.linked, state.chainActive.Tip())
      requires var good := GoodBlocks(entries, selector.tree, selector.linked, state.blocks, state.params, judge);
               && (forall x :: x in selector.linked && selector.tree[x].pprev.None? ==> x in good)
               && Steady(selector.index, selector.linked, selector.failed, selector.setBlockIndexCandidates, best, good,
                         TipId(state.chainActive.Tip()))
      ensures Valid() && this.state == state && this.selector == selector && mapBlockIndex == entries && this.judge == judge
    {
      hide Tied, Steady, GoodBlocks, ChainState.ChainStateManager.Valid, ChainSelector.Valid;
      StateApart(state);
      this.state, this.selector, mapBlockIndex, this.judge, this.flushAt, this.best := state, selector, entries, judge, flushAt, best;
    }

    ghost predicate IsTied()
      reads state`blocks
    {
      Tied(mapBlockIndex, selector.tree, selector.linked, state.blocks)
    }

    /** The blocks that the chain could reach. */
    ghost function Good(): set<Id>
      requires IsTied()
      reads state`blocks
    {
      GoodBlocks(mapBlockIndex, selector.tree, selector.linked, state.blocks, state.params, judge)
    }

    ghost predicate IsSteady()
      requires IsTied()
      reads this, state`blocks, state.chainActive, selector
    {
      Steady(selector.index, selector.linked, selector.failed, selector.setBlockIndexCandidates, best, Good(), TipId(state.chainActive.Tip()))
    }

    ghost predicate Apart() {
      && this as object !in state.coinsTip.BaseRepr && selector as object !in state.coinsTip.BaseRepr
      && state as object !in state.coinsTip.BaseRepr && state.chainActive as object !in state.coinsTip.BaseRepr
    }

    /** Coins, active chain, marks and candidates agree; nothing is pruned, and the genesis block is good. */
    ghost predicate Valid()
      reads this, state, state.chainActive, state.coinsTip, state.coinsTip.BaseRepr, selector
    {
      && state.Valid() && selector.Valid() && Apart()
      && IsTied() && selector.linked <= selector.haveData
      && OnEntry(mapBlockIndex, selector.linked, state.chainActive.Tip())
      && (forall x :: x in selector.linked && selector.tree[x].pprev.None? ==> x in Good())
      && IsSteady()
    }

    /** The tip is the ancestor of a linked block at a given height. */
    ghost predicate Reached(target: Id, height: int)
      reads this, state, state.chainActive, state.coinsTip, state.coinsTip.BaseRepr, selector
    {
      && Valid() && target in selector.linked && target in mapBlockIndex && mapBlockIndex[target].Rooted()
      && state.StandsAt(mapBlockIndex[target], height)
    }

    /** The next block on the way to a linked block: its entry, and when it is good. */
    lemma NextEntry(target: Id, height: int, b: BlockIndex)
      requires Reached(target, height) && height < mapBlockIndex[target].nHeight && b == mapBlockIndex[target].Ancestor(height + 1)
      ensures b.hash in selector.linked && b.hash in selector.tree && b.hash in mapBlockIndex && mapBlockIndex[b.hash] == b
      ensures ChainState.Stored(b, state.blocks)
      ensures b.hash in Good() <==> ChainState.Verdict(b, state.blocks, state.params, judge(b))
      ensures b.hash !in Good() ==> state.chainActive.Tip() != null
    {
      hide ChainState.Stored, ChainState.Verdict, Complete, Covers, Known, ParentsToo, ChainSelector.Valid, ChainState.ChainStateManager.Valid;
      hide BlockIndex.Linked, BlockIndex.SkipsRight, BlockIndex.Ancestor, Tied, GoodBlocks;
      NextLinked(mapBlockIndex, selector.tree, selector.linked, state.blocks, target, height + 1, b);
      RootEntry(mapBlockIndex, selector.tree, selector.linked, state.blocks, b);
      GoodNext(mapBlockIndex, selector.tree, selector.linked, state.blocks, state.params, judge, b);
    }

    /** Connect the next block on the way to a target. A refused block is marked; after an accepted one the candidates
        that are worse are dropped. */
    method ConnectOne(target: Id, height: int, b: BlockIndex, lowest: Id) returns (ok: bool)
      requires Reached(target, height) && height < mapBlockIndex[target].nHeight && b == mapBlockIndex[target].Ancestor(height + 1)
      requires lowest in selector.tree
      modifies this`best, state`undo, state.chainActive, state.coinsTip, state.coinsTip.BaseRepr
      modifies selector`failed, selector`setBlockIndexCandidates, selector`pindexBestInvalid
      ensures Reached(target, if ok then height + 1 else height)
      ensures ChainState.Stored(b, state.blocks) && (ok <==> ChainState.Verdict(b, state.blocks, state.params, judge(b)))
      ensures b.hash in selector.linked && selector.failed == if ok then old(selector.failed) else old(selector.failed) + {b.hash}
    {
      hide ChainState.Stored, ChainState.Verdict, Complete, Covers, Known, ParentsToo, Unfailed, Less, Rooted, Right;
      hide ChainState.ChainStateManager.Valid;
      hide BlockIndex.Linked, BlockIndex.SkipsRight, BlockIndex.Ancestor, Tied, GoodBlocks;
      NextEntry(target, height, b);
      ok := state.ConnectNext(mapBlockIndex[target], height, b, judge(b), flushAt(b));
      if ok {
        ApartUnfailed(selector.tree, selector.failed, Good(), b.hash);
        best := selector.PruneBlockIndexCandidates(b.hash, best);
      } else {
        assert state.chainActive.Tip() != null;
        SteadyRefuses(selector.index, selector.linked, selector.failed, selector.setBlockIndexCandidates, best, Good(),
                      TipId(state.chainActive.Tip()), b.hash);
        selector.InvalidBlockFound(b.hash);
        selector.InvalidChainFound(lowest);
      }
    }

    lemma ReachedMeans(target: Id, height: int)
      requires Reached(target, height)
      ensures target in selector.linked && target in mapBlockIndex && mapBlockIndex[target].Rooted()
      ensures -1 <= height <= mapBlockIndex[target].nHeight
    {
    }

    lemma ReachedValid(target: Id, height: int)
      requires Reached(target, height)
      ensures Valid()
    {
    }

    lemma OnPath(target: Id, height: int, h: nat)
      requires Reached(target, height) && h <= mapBlockIndex[target].nHeight
      ensures mapBlockIndex[target].Ancestor(h).hash in selector.tree
    {
      hide ChainState.Stored, Steady, Tied, GoodBlocks, ChainSelector.Valid, ChainState.ChainStateManager.Valid;
      NextLinked(mapBlockIndex, selector.tree, selector.linked, state.blocks, target, h, mapBlockIndex[target].Ancestor(h));
    }

    /** Connect a list of blocks, stopping at the first refused one or as soon as the tip has more work than the old one. */
    method ConnectBatch(target: Id, list: seq<BlockIndex>, height: int, top: nat, oldTip: BlockIndex?)
        returns (progress: Progress, reached: int)
      requires Reached(target, height) && height < top <= mapBlockIndex[target].nHeight && |list| == top - height
      requires forall k :: 0 <= k < |list| ==> list[k] == mapBlockIndex[target].Ancestor(top - k)
      modifies this`best, state`undo, state.chainActive, state.coinsTip, state.coinsTip.BaseRepr
      modifies selector`failed, selector`setBlockIndexCandidates, selector`pindexBestInvalid
      ensures Reached(target, reached)
      ensures Stopped(mapBlockIndex[target], state.blocks, state.params, judge, progress, height, reached, top, oldTip)
      ensures selector.failed == old(selector.failed) + Marks(progress) && Marks(progress) <= selector.linked
    {
      hide ChainActivator.Reached, ChainState.Stored, ChainState.Verdict;
      hide BlockIndex.Linked, BlockIndex.SkipsRight, BlockIndex.Ancestor;
      ReachedMeans(target, height);
      OnPath(target, height, height + 1);
      reached := height;
      for i := |list| downto 0
        invariant Reached(target, reached) && reached == top - i
        invariant NotYet(mapBlockIndex[target], height, reached, oldTip) && selector.failed == old(selector.failed)
      {
        var ok := ConnectOne(target, reached, list[i], list[|list| - 1].hash);
        if !ok {
          return Rejected(list[i]), reached;
        }
        reached := reached + 1;
        if oldTip == null || list[i].nChainWork > oldTip.nChainWork {
          return MoreWork, reached;
        }
      }
      progress := Going;
    }

    /** Connect blocks towards a target in batches of 32. */
    method ConnectForward(target: Id, height: int, oldTip: BlockIndex?) returns (progress: Progress, reached: int)
      requires Reached(target, height)
      modifies this`best, state`undo, state.chainActive, state.coinsTip, state.coinsTip.BaseRepr
      modifies selector`failed, selector`setBlockIndexCandidates, selector`pindexBestInvalid
      ensures Reached(target, reached)
      ensures Stopped(mapBlockIndex[target], state.blocks, state.params, judge, progress, height, reached, mapBlockIndex[target].nHeight, oldTip)
      ensures selector.failed == old(selector.failed) + Marks(progress) && Marks(progress) <= selector.linked
    {
      hide ChainActivator.Reached, ChainState.Stored, ChainState.Verdict, Better;
      hide BlockIndex.Linked, BlockIndex.SkipsRight, BlockIndex.Ancestor;
      ReachedMeans(target, height);
      var pindexMostWork := mapBlockIndex[target];
      reached := height;
      while reached != pindexMostWork.nHeight
        invariant Reached(target, reached) && height <= reached <= pindexMostWork.nHeight
        invariant NotYet(pindexMostWork, height, reached, oldTip) && selector.failed == old(selector.failed)
        decreases pindexMostWork.nHeight - reached
      {
        var nTargetHeight: nat := if reached + 32 < pindexMostWork.nHeight then reached + 32 else pindexMostWork.nHeight;
        var vpindexToConnect := state.BlocksToConnect(pindexMostWork, reached, nTargetHeight);
        ghost var from := reached;
        progress, reached := ConnectBatch(target, vpindexToConnect, reached, nTargetHeight, oldTip);
        StoppedJoins(pindexMostWork, state.blocks, state.params, judge, progress, height, from, reached, nTargetHeight, oldTip);
        if !progress.Going? {
          return;
        }
      }
      progress := Going;
    }

    /** A linked block hangs on the root of the active chain. */
    lemma RootShared(target: Id)
      requires Valid() && target in selector.linked
      ensures target in mapBlockIndex && mapBlockIndex[target].Rooted() && ChainState.Stored(mapBlockIndex[target], state.blocks)
      ensures state.chainActive.vChain != [] ==> state.chainActive.vChain[0] == mapBlockIndex[target].Ancestor(0)
    {
      hide ChainState.Stored, Steady, Tied, GoodBlocks, ChainSelector.Valid, BlockIndex.Ancestor, BlockIndex.SkipsRight, BlockIndex.Linked;
      ChainValid();
      TiedMeans(mapBlockIndex, selector.tree, selector.linked, state.blocks, target);
      if state.chainActive.vChain != [] {
        SameRoot(mapBlockIndex, selector.tree, selector.linked, state.blocks, state.chainActive.Tip().hash, target);
      }
    }

    lemma ChainValid()
      requires state.Valid()
      ensures state.chainActive.Valid()
    {
    }

    /** A block on the active chain is good. */
    lemma ActiveGood(b: BlockIndex)
      requires Valid() && state.chainActive.Contains(b)
      ensures b.hash in Good()
    {
      hide ChainState.Stored, Complete, Covers, Known, ParentsToo, Tied, GoodBlocks, ChainSelector.Valid, ChainState.ChainStateManager.Valid;
      ChainValid();
      state.chainActive.ContainsIff(b);
      GoodParents(mapBlockIndex, selector.tree, selector.linked, state.blocks, state.params, judge);
      ChainGood(mapBlockIndex, selector.tree, selector.linked, state.blocks, Good(), state.chainActive.Tip(), b);
    }

    lemma ChainIsGood()
      requires Valid()
      ensures var v := state.chainActive.vChain; forall k :: 0 <= k < |v| && v[k] != null ==> v[k].hash in Good()
    {
      hide ChainActivator.IsSteady, Tied, GoodBlocks, ChainSelector.Valid, ChainState.ChainStateManager.Valid;
      ChainValid();
      var v := state.chainActive.vChain;
      forall k | 0 <= k < |v| && v[k] != null
        ensures v[k].hash in Good()
      {
        assert state.chainActive.Contains(v[k]);
        ActiveGood(v[k]);
      }
    }

    /** Disconnect the active blocks that are not on the path of a target. */
    method GoBack(target: Id) returns (height: int)
      requires Valid() && target in selector.linked
      modifies this`best, state.chainActive, state.coinsTip, state.coinsTip.BaseRepr
      ensures Reached(target, height) && unchanged(selector)
    {
      hide ChainState.Stored, Complete, Covers, Known, ParentsToo, Tied, GoodBlocks, ChainSelector.Valid, ChainState.ChainStateManager.Valid;
      hide BlockIndex.Linked, BlockIndex.SkipsRight, BlockIndex.Ancestor, Chain.Valid;
      RootShared(target);
      var pindexMostWork := mapBlockIndex[target];
      ghost var good, tip := Good(), TipId(state.chainActive.Tip());
      forall b: BlockIndex | state.chainActive.Contains(b)
        ensures b.hash in good
      {
        ActiveGood(b);
      }
      height := state.BackToFork(pindexMostWork, flushAt);
      if height >= 0 {
        NextLinked(mapBlockIndex, selector.tree, selector.linked, state.blocks, target, height, state.chainActive.Tip());
        best := SteadyMoves(selector.index, selector.linked, selector.failed, selector.setBlockIndexCandidates, best, good, tip,
                            state.chainActive.Tip().hash);
      }
    }

    /** One step towards making a block the tip: back to the fork, then forward. */
    method ActivateBestChainStep(target: Id) returns (progress: Progress, fork: int, reached: int)
      requires Valid() && target in selector.linked
      modifies this`best, state`undo, state.chainActive, state.coinsTip, state.coinsTip.BaseRepr
      modifies selector`failed, selector`setBlockIndexCandidates, selector`pindexBestInvalid
      ensures Reached(target, reached)
      ensures Stopped(mapBlockIndex[target], state.blocks, state.params, judge, progress, fork, reached, mapBlockIndex[target].nHeight,
                      old(state.chainActive.Tip()))
      ensures selector.failed == old(selector.failed) + Marks(progress) && Marks(progress) <= selector.linked
    {
      hide ChainActivator.Reached, ChainActivator.Valid, Stopped;
      var pindexOldTip := state.chainActive.Tip();
      fork := GoBack(target);
      progress, reached := ConnectForward(target, fork, pindexOldTip);
    }

    /** Choose the block to work towards: of all candidates with a usable path the best, and so not worse than any good
        block. */
    method ChooseTarget() returns (target: Option<Id>)
      requires Valid()
      modifies selector
      ensures Valid() && old(selector.failed) <= selector.failed
      ensures target.None? ==> Good() == {} && state.chainActive.Tip() == null
      ensures target.Some? ==> target.value in selector.linked && Known(selector.index, selector.linked) && Good() <= selector.linked
                               && Unfailed(selector.tree, selector.failed, target.value)
                               && NoneBetter(selector.index, selector.linked, Good(), target.value)
    {
      hide ChainState.Stored, Complete, Covers, ParentsToo, Tied, GoodBlocks, ChainState.ChainStateManager.Valid, Unfailed, Less, Right, Usable;
      ghost var good, tip := Good(), TipId(state.chainActive.Tip());
      ghost var failed, candidates := selector.failed, selector.setBlockIndexCandidates;
      ChainIsGood();
      var vChain := state.chainActive.vChain;
      selector.active := set k | 0 <= k < |vChain| && vChain[k] != null :: vChain[k].hash;
      target := selector.FindMostWorkChain();
      SteadySelected(selector.index, selector.linked, selector.active, selector.haveData, failed, selector.failed, candidates,
                     selector.setBlockIndexCandidates, best, good, tip);
      if target.None? {
        NoneGood(selector.index, selector.linked, selector.active, selector.haveData, failed, candidates, best, good, tip);
      } else {
        BestOfGood(selector.index, selector.linked, selector.active, selector.haveData, failed, candidates, best, good, tip, target.value);
        UsableUnfailed(selector.tree, selector.active, selector.Bad(), selector.failed, good, target.value);
      }
    }

    /** What a step that does not reach its target has gained: a new mark, or a tip with more work. */
    lemma StepGains(target: Id, progress: Progress, fork: int, reached: int, oldTip: BlockIndex?, failed: set<Id>)
      requires Reached(target, reached) && Unfailed(selector.tree, failed, target)
      requires Stopped(mapBlockIndex[target], state.blocks, state.params, judge, progress, fork, reached, mapBlockIndex[target].nHeight, oldTip)
      ensures progress.Going? ==> state.chainActive.Tip() != null && state.chainActive.Tip().hash == target
      ensures progress.Rejected? ==> progress.block.hash !in failed
      ensures progress.MoreWork? ==> Ahead(selector.tree, selector.linked, state.chainActive.Tip()) < Ahead(selector.tree, selector.linked, oldTip)
    {
      hide ChainState.Stored, ChainState.Verdict, Steady, Tied, GoodBlocks, Right, ChainState.ChainStateManager.Valid, Unfailed, Ahead, NotYet;
      TiedMeans(mapBlockIndex, selector.tree, selector.linked, state.blocks, target);
      if progress.Rejected? {
        PathUnmarked(mapBlockIndex, selector.tree, selector.linked, state.blocks, failed, target, progress.block);
      } else if progress.MoreWork? {
        var tip := state.chainActive.Tip();
        TiedMeans(mapBlockIndex, selector.tree, selector.linked, state.blocks, tip.hash);
        FewerAhead(selector.tree, selector.linked, oldTip, tip);
      }
    }

    /** The tip is good and no good block is better; without a tip there is no good block. */
    ghost predicate AtBest()
      requires Valid()
      reads this, state, state.chainActive, state.coinsTip, state.coinsTip.BaseRepr, selector
    {
      var tip := state.chainActive.Tip();
      if tip == null then Good() == {}
      else tip.hash in Good() && NoneBetter(selector.index, selector.linked, Good(), tip.hash)
    }

    /** The best good block is no other than one without a rival. */
    lemma NoRival(tip: BlockIndex)
      requires Valid() && AtBest() && tip.hash in Good() && OnEntry(mapBlockIndex, selector.linked, tip)
      requires Unrivalled(selector.tree, selector.seqIds, Good(), tip.hash)
      ensures state.chainActive.Tip() == tip
    {
      hide Complete, Covers, Unfailed, Tied, GoodBlocks, ParentsToo, Right, ChainState.ChainStateManager.Valid;
      var best := state.chainActive.Tip();
      assert Preferred(selector.tree, selector.seqIds, best.hash, tip.hash);
    }

    lemma TipIsGood()
      requires Valid() && state.chainActive.Tip() != null
      ensures state.chainActive.Tip().hash in Good() && OnEntry(mapBlockIndex, selector.linked, state.chainActive.Tip())
    {
      hide Complete, Covers, Tied, GoodBlocks, ParentsToo, ChainSelector.Valid, ChainState.ChainStateManager.Valid;
    }

    /** Coins are those of the tip. */
    lemma CoinsOfTip()
      requires Valid() && state.chainActive.Tip() != null
      ensures ChainState.Stored(state.chainActive.Tip(), state.blocks)
      ensures state.coinsTip.Layered() && state.coinsTip.View() == ChainState.Replay(state.chainActive.Tip(), state.blocks)
    {
      hide ChainActivator.IsTied, ChainActivator.IsSteady, ChainSelector.Valid;
    }

    /** One round: choose a block and step towards it. It is the last round, or something was gained. */
    method Round() returns (done: bool)
      requires Valid()
      modifies this`best, state`undo, state.chainActive, state.coinsTip, state.coinsTip.BaseRepr, selector
      ensures Valid() && (done ==> AtBest())
      ensures !done ==>
                || selector.linked - selector.failed < old(selector.linked - selector.failed)
                || (selector.linked - selector.failed == old(selector.linked - selector.failed)
                    && Ahead(selector.tree, selector.linked, state.chainActive.Tip()) < old(Ahead(selector.tree, selector.linked, state.chainActive.Tip())))
    {
      hide Complete, Covers, NoneBetter, Unfailed, Stopped, ChainActivator.Reached, Tied, GoodBlocks, ParentsToo, Right, Less;
      hide ChainState.ChainStateManager.Valid;
      ghost var tip := state.chainActive.Tip();
      var pindexMostWork := ChooseTarget();
      if pindexMostWork.None? {
        return true;
      }
      var target := pindexMostWork.value;
      if state.chainActive.Tip() != null && state.chainActive.Tip().hash == target {
        return true;
      }
      ghost var chosen := selector.failed;
      var progress, fork, reached := ActivateBestChainStep(target);
      ReachedValid(target, reached);
      StepGains(target, progress, fork, reached, tip, chosen);
      assert progress.Rejected? ==> progress.block.hash in selector.linked - chosen;
      done := state.chainActive.Tip() != null && state.chainActive.Tip().hash == target;
    }

    /** Make the best chain active, in as many rounds as it takes. The loop ends, and it ends at the best of all linked
        blocks whose whole path is accepted. */
    method ActivateBestChain()
      requires Valid()
      modifies this`best, state`undo, state.chainActive, state.coinsTip, state.coinsTip.BaseRepr, selector
      ensures Valid() && AtBest()
      ensures var tip := old(state.chainActive.Tip());
              tip != null && Unrivalled(selector.tree, selector.seqIds, Good(), tip.hash) ==>
                state.chainActive.Tip() == tip && state.coinsTip.View() == old(state.coinsTip.View())
    {
      hide ChainActivator.AtBest, ChainActivator.IsSteady, Tied, GoodBlocks, ChainSelector.Valid, ChainState.ChainStateManager.Valid;
      hide Unrivalled, OnEntry, CoinsCache.CoinsViewCache.View, CoinsCache.CoinsViewCache.Layered, ChainState.Stored, ChainState.Replay;
      ghost var tip := state.chainActive.Tip();
      if tip != null {
        TipIsGood();
        CoinsOfTip();
      }
      var done := false;
      while !done
        invariant Valid() && (done ==> AtBest()) && state.blocks == old(state.blocks)
        decreases !done, selector.linked - selector.failed, Ahead(selector.tree, selector.linked, state.chainActive.Tip())
      {
        done := Round();
      }
      if tip != null && Unrivalled(selector.tree, selector.seqIds, Good(), tip.hash) {
        NoRival(tip);
        CoinsOfTip();
      }
    }
  }
}
