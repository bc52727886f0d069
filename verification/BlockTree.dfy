/**
 The tree of block headers: parents, skip pointers, and the active chain kept as a vector.

 The plain parent walk `Ancestor` is the reference; the skip list, the vector with its early
 exit, the fork search and the locator are shown to agree with it.
 */
module BlockTree {
  import opened Basics
  import opened Powers
  import opened SkipList

  // --- block index entries -------------------------------------------------------------

  class BlockIndex {
    const hash: BlockHash
    const pprev: BlockIndex?
    const pskip: BlockIndex?
    const nHeight: nat
    const nChainWork: nat

    /** Add a block below its parent and build its skip pointer. */
    constructor (hash: BlockHash, pprev: BlockIndex?, proof: nat)
      requires pprev != null ==> pprev.Rooted()
      ensures Rooted() && this.hash == hash && this.pprev == pprev
      ensures nHeight == if pprev == null then 0 else pprev.nHeight + 1
      ensures nChainWork == (if pprev == null then 1 else pprev.nChainWork) + proof
    {
      this.hash, this.pprev := hash, pprev;
      if pprev == null {
        nHeight, nChainWork, pskip := 0, 1 + proof, null;
      } else {
        nHeight, nChainWork := pprev.nHeight + 1, pprev.nChainWork + proof;
        var skip := pprev.GetAncestor(GetSkipHeight(pprev.nHeight + 1));
        pskip := skip;
      }
    }

    /** The entry hangs on a root by parents of falling height. */
    ghost predicate Linked()
      decreases nHeight
    {
      if pprev == null then nHeight == 0 else pprev.nHeight + 1 == nHeight && pprev.Linked()
    }

    /** Every skip pointer on the way to the root points at the ancestor it is meant for. */
    ghost predicate SkipsRight()
      requires Linked()
      decreases nHeight
    {
      if pprev == null then pskip == null
      else pskip == pprev.Ancestor(GetSkipHeight(nHeight)) && pprev.SkipsRight()
    }

    ghost predicate Rooted() { Linked() && SkipsRight() }

    /** The plain walk over parents. */
    ghost function Ancestor(height: nat): (b: BlockIndex)
      requires Linked() && height <= nHeight
      ensures b.Linked() && b.nHeight == height
      decreases nHeight
    {
      if height == nHeight then this else pprev.Ancestor(height)
    }

    lemma {:induction false} AncestorTransitive(k: nat, h: nat)
      requires Linked() && h <= k <= nHeight
      ensures Ancestor(k).Ancestor(h) == Ancestor(h)
      decreases nHeight
    {
      if k < nHeight {
        pprev.AncestorTransitive(k, h);
      }
    }

    lemma {:induction false} AncestorRooted(height: nat)
      requires Rooted() && height <= nHeight
      ensures Ancestor(height).Rooted()
      decreases nHeight
    {
      if height < nHeight {
        pprev.AncestorRooted(height);
      }
    }

    /** The next step of a walk: over the skip pointer, or to the parent. */
    lemma StepKeepsAncestor(height: nat)
      requires Rooted() && height < nHeight
      ensures pprev != null && pprev.Rooted() && pprev.nHeight == nHeight - 1
      ensures pprev.Ancestor(height) == Ancestor(height)
      ensures pskip != null && pskip.Rooted() && pskip.nHeight == GetSkipHeight(nHeight)
      ensures GetSkipHeight(nHeight) >= height ==> pskip.Ancestor(height) == Ancestor(height)
    {
      pprev.AncestorRooted(GetSkipHeight(nHeight));
      if GetSkipHeight(nHeight) >= height {
        pprev.AncestorTransitive(GetSkipHeight(nHeight), height);
      }
    }

    /** The walk over skip pointers ends where the plain walk ends. */
    method GetAncestor(height: int) returns (r: BlockIndex?)
      requires Rooted()
      ensures r == if 0 <= height <= nHeight then Ancestor(height) else null
      ensures r != null ==> r.Rooted()
    {
      ghost var steps;
      r, steps := WalkTo(height);
    }

    /** And it takes few steps: at most the square of the number of bits of the height it starts from. */
    method WalkTo(height: int) returns (r: BlockIndex?, ghost steps: nat)
      requires Rooted()
      ensures r == if 0 <= height <= nHeight then Ancestor(height) else null
      ensures r != null ==> r.Rooted()
      ensures forall bits: nat :: nHeight < Pow2(bits) ==> steps <= bits * bits
    {
      hide BlockIndex.Linked, BlockIndex.SkipsRight, BlockIndex.Ancestor, GetSkipHeight;
      steps := 0;
      if height > nHeight || height < 0 {
        return null, 0;
      }
      forall bits: nat | nHeight < Pow2(bits)
        ensures Steps(nHeight, height) <= bits * bits
      {
        StepsSquare(nHeight, height, bits);
      }
      var pindexWalk: BlockIndex := this;
      var heightWalk := nHeight;
      while heightWalk > height
        invariant pindexWalk.Rooted() && pindexWalk.nHeight == heightWalk && height <= heightWalk
        invariant pindexWalk.Ancestor(height) == Ancestor(height)
        invariant steps + Steps(heightWalk, height) == Steps(nHeight, height)
        decreases heightWalk
      {
        steps := steps + 1;
        var heightSkip := GetSkipHeight(heightWalk);
        var heightSkipPrev := GetSkipHeight(heightWalk - 1);
        pindexWalk.StepKeepsAncestor(height);
        if pindexWalk.pskip != null &&
           (heightSkip == height ||
            (heightSkip > height && !(heightSkipPrev < heightSkip - 2 && heightSkipPrev >= height))) {
          pindexWalk, heightWalk := pindexWalk.pskip, heightSkip;
        } else {
          pindexWalk, heightWalk := pindexWalk.pprev, heightWalk - 1;
        }
      }
      r := pindexWalk;
      r.AncestorSelf();
    }

    lemma AncestorSelf()
      requires Linked()
      ensures Ancestor(nHeight) == this
    {
    }

    /** All ancestors from the root to this entry. */
    ghost function Path(): (p: seq<BlockIndex>)
      requires Linked()
      ensures |p| == nHeight + 1
      ensures forall i :: 0 <= i < |p| ==> p[i] == Ancestor(i)
      decreases nHeight
    {
      if pprev == null then [this] else pprev.Path() + [this]
    }
  }

  /** The parent of an ancestor is the next ancestor, down to the root. */
  lemma ParentOnPath(a: BlockIndex, b: BlockIndex)
    requires a.Rooted() && b.nHeight <= a.nHeight && a.Ancestor(b.nHeight) == b && b.Rooted()
    ensures b.pprev == null <==> b.nHeight == 0
    ensures b.pprev != null ==> b.pprev.Rooted() && b.pprev.nHeight == b.nHeight - 1 && a.Ancestor(b.nHeight - 1) == b.pprev
  {
    if b.nHeight > 0 {
      a.AncestorTransitive(b.nHeight, b.nHeight - 1);
    }
  }

  /** Two entries that share an ancestor share everything below it. */
  lemma SharedBelow(a: BlockIndex, b: BlockIndex, k: nat, h: nat)
    requires a.Linked() && b.Linked() && h <= k <= a.nHeight && k <= b.nHeight
    requires a.Ancestor(k) == b.Ancestor(k)
    ensures a.Ancestor(h) == b.Ancestor(h)
  {
    a.AncestorTransitive(k, h);
    b.AncestorTransitive(k, h);
  }

  /** A vector is the path of a block above some height, and as it was from there down. */
  ghost predicate Rebuilding(was: seq<BlockIndex?>, tip: BlockIndex, v: seq<BlockIndex?>, h: int)
    requires tip.Linked()
  {
    && |v| == tip.nHeight + 1 && -1 <= h <= tip.nHeight && (forall i :: h < i < |v| ==> v[i] == tip.Ancestor(i))
    && (forall i :: 0 <= i <= h ==> v[i] == if i < |was| then was[i] else null)
  }

  lemma RebuildOne(was: seq<BlockIndex?>, tip: BlockIndex, v: seq<BlockIndex?>, h: nat)
    requires tip.Linked() && Rebuilding(was, tip, v, h)
    ensures h < |v| && Rebuilding(was, tip, v[h := tip.Ancestor(h)], h - 1)
  {
    hide BlockIndex.Ancestor;
  }

  /** If it was the path of a block that shares the ancestor at that height, it is the path of the new one. */
  lemma Rebuilt(was: seq<BlockIndex?>, tip: BlockIndex, v: seq<BlockIndex?>, h: int)
    requires tip.Linked() && Rebuilding(was, tip, v, h) && (h >= 0 ==> v[h] == tip.Ancestor(h))
    requires was != [] ==> var b := was[|was| - 1]; b != null && b.Linked() && was == b.Path()
    ensures v == tip.Path()
  {
    forall i | 0 <= i < |v|
      ensures v[i] == tip.Ancestor(i)
    {
      if i <= h {
        SharedBelow(was[|was| - 1], tip, h, i);
      }
    }
  }

  // --- the active chain ------------------------------------------------------------------

  class Chain {
    var vChain: seq<BlockIndex?>

    constructor ()
      ensures vChain == [] && Valid()
    {
      vChain := [];
    }

    /** The vector is the path of its last entry. */
    ghost predicate Valid()
      reads this
    {
      vChain == [] || IsPathOf(vChain[|vChain| - 1])
    }

    ghost predicate IsPathOf(b: BlockIndex?)
      reads this
    {
      b != null && b.Rooted() && vChain == b.Path()
    }

    function Tip(): (b: BlockIndex?)
      reads this
    {
      if |vChain| > 0 then vChain[|vChain| - 1] else null
    }

    function At(nHeight: int): (b: BlockIndex?)
      reads this
    {
      if 0 <= nHeight < |vChain| then vChain[nHeight] else null
    }

    predicate Contains(b: BlockIndex)
      reads this
    {
      At(b.nHeight) == b
    }

    function Height(): (h: int)
      reads this
    {
      |vChain| - 1
    }

    /** A block is contained exactly when it is an ancestor of the tip. */
    lemma ContainsIff(b: BlockIndex)
      requires Valid()
      ensures Contains(b) <==> Tip() != null && b.nHeight <= Tip().nHeight && Tip().Ancestor(b.nHeight) == b
    {
    }

    /** Make an entry the tip, rewriting only the part that differs. */
    method SetTip(tip: BlockIndex?)
      requires Valid() && (tip != null ==> tip.Rooted())
      modifies this
      ensures Valid() && Tip() == tip
      ensures vChain == if tip == null then [] else tip.Path()
    {
      hide BlockIndex.Linked, BlockIndex.SkipsRight, BlockIndex.Ancestor;
      if tip == null {
        vChain := [];
        return;
      }
      tip.AncestorSelf();
      ghost var was := vChain;
      if |vChain| <= tip.nHeight {
        vChain := vChain + seq(tip.nHeight + 1 - |vChain|, i => null);
      } else {
        vChain := vChain[..tip.nHeight + 1];
      }
      var pindex: BlockIndex? := tip;
      ghost var h: int := tip.nHeight;
      assert Rebuilding(was, tip, vChain, h);
      hide Rebuilding;
      while pindex != null && vChain[pindex.nHeight] != pindex
        invariant |vChain| == tip.nHeight + 1 && -1 <= h <= tip.nHeight && Rebuilding(was, tip, vChain, h)
        invariant if h == -1 then pindex == null else pindex == tip.Ancestor(h)
        decreases h
      {
        RebuildOne(was, tip, vChain, h);
        vChain := vChain[pindex.nHeight := pindex];
        tip.AncestorRooted(h);
        ParentOnPath(tip, pindex);
        pindex := pindex.pprev;
        h := h - 1;
      }
      Rebuilt(was, tip, vChain, h);
    }

    /** The last common block of this chain and a block, or none. */
    method FindFork(pindex: BlockIndex?) returns (fork: BlockIndex?)
      requires Valid() && (pindex != null ==> pindex.Rooted())
      ensures pindex == null || vChain == [] ==> fork == null
      ensures fork != null ==> && pindex != null && fork.Rooted() && fork.nHeight <= pindex.nHeight
                               && pindex.Ancestor(fork.nHeight) == fork && Contains(fork)
      ensures pindex != null ==> forall h: nat :: h <= pindex.nHeight && Contains(pindex.Ancestor(h)) ==>
                fork != null && h <= fork.nHeight
    {
      hide BlockIndex.Linked, BlockIndex.SkipsRight, BlockIndex.Ancestor, Chain.Valid;
      fork := pindex;
      if fork == null {
        return;
      }
      pindex.AncestorSelf();
      if fork.nHeight > Height() {
        fork := fork.GetAncestor(Height());
      }
      while fork != null && !Contains(fork)
        invariant fork != null ==> fork.Rooted() && fork.nHeight <= pindex.nHeight && pindex.Ancestor(fork.nHeight) == fork
        invariant forall h: nat :: h <= pindex.nHeight && Contains(pindex.Ancestor(h)) ==> fork != null && h <= fork.nHeight
        decreases if fork == null then 0 else fork.nHeight + 1
      {
        ParentOnPath(pindex, fork);
        fork := fork.pprev;
      }
    }

    /** An ancestor, read off the vector when the block is on this chain. */
    method StepBack(pindex: BlockIndex, nHeight: nat) returns (r: BlockIndex)
      requires Valid() && pindex.Rooted() && nHeight <= pindex.nHeight
      ensures r == pindex.Ancestor(nHeight) && r.Rooted()
    {
      pindex.AncestorRooted(nHeight);
      if Contains(pindex) {
        ContainsIff(pindex);
        Tip().AncestorTransitive(pindex.nHeight, nHeight);
        r := At(nHeight);
      } else {
        var a := pindex.GetAncestor(nHeight);
        r := a;
      }
    }

    /** Hashes of ever sparser ancestors: single steps first, then doubling ones, ending with the
        root. The list has at most 12 + ceil(log2(height + 1)) entries. */
    method GetLocator(from: BlockIndex?) returns (vHave: seq<BlockHash>, ghost heights: seq<nat>)
      requires Valid() && (from != null ==> from.Rooted())
      ensures |heights| == |vHave|
      ensures from == null && vChain == [] ==> vHave == []
      ensures var start := if from != null then from else Tip();
        start != null ==> IsLocator(start, vHave, heights)
    {
      vHave, heights := [], [];
      var first := if from != null then from else Tip();
      if first == null {
        return;
      }
      var start: BlockIndex := first;
      hide BlockIndex.Linked, BlockIndex.SkipsRight, BlockIndex.Ancestor, Chain.Valid, Chain.At, LocatorSoFar, IsLocator;
      var pindex: BlockIndex := start;
      var nStep := 1;
      LocatorStart(start);
      while true
        invariant pindex.Rooted() && pindex.nHeight <= start.nHeight && start.Ancestor(pindex.nHeight) == pindex
        invariant |heights| == |vHave| && nStep >= 1
        invariant LocatorSoFar(start, vHave, heights, pindex.nHeight, nStep)
        decreases pindex.nHeight
      {
        if pindex.nHeight == 0 {
          LocatorEnds(start, vHave, heights, nStep);
        }
        ghost var had, at := vHave, heights;
        vHave := vHave + [pindex.hash];
        heights := heights + [pindex.nHeight];
        if pindex.nHeight == 0 {
          break;
        }
        LocatorNext(start, had, at, pindex.nHeight, nStep);
        var nHeight := Clamp(pindex.nHeight - nStep);
        start.AncestorTransitive(pindex.nHeight, nHeight);
        pindex := StepBack(pindex, nHeight);
        if |vHave| > 10 {
          nStep := nStep * 2;
        }
      }
    }
  }

  /** What a locator promises: ever lower ancestors from the start to the root, and few of them. The first twelve leave
      no block out, and every block has an entry at or below it that is at most twice as deep, so that a peer whose
      chain left this one some blocks ago is sent at most as many blocks that it knows. */
  ghost predicate IsLocator(start: BlockIndex, vHave: seq<BlockHash>, heights: seq<nat>)
    requires start.Linked()
  {
    && |heights| == |vHave|
    && |heights| > 0 && heights[0] == start.nHeight && heights[|heights| - 1] == 0
    && (forall i, j :: 0 <= i < j < |heights| ==> heights[i] > heights[j])
    && (forall i :: 0 <= i < |heights| ==> heights[i] <= start.nHeight)
    && (forall i :: 0 <= i < |heights| ==> vHave[i] == start.Ancestor(heights[i]).hash)
    && (forall bits: nat :: start.nHeight + 1 <= Pow2(bits) ==> |vHave| <= 12 + bits)
    && Dense(start.nHeight, heights)
  }

  ghost predicate Dense(top: nat, heights: seq<nat>) {
    && (forall i :: 0 <= i <= 11 && i <= top ==> i < |heights| && heights[i] == top - i)
    && (forall d :: 0 <= d <= top ==> exists i :: 0 <= i < |heights| && d <= top - heights[i] <= 2 * d)
  }

  /** The state of the locator loop before an entry is added. */
  ghost predicate LocatorSoFar(start: BlockIndex, vHave: seq<BlockHash>, heights: seq<nat>, next: nat, nStep: int)
    requires start.Linked() && |heights| == |vHave|
  {
    var n := |vHave|;
    && (n == 0 ==> next == start.nHeight) && (n > 0 ==> heights[0] == start.nHeight)
    && (forall i, j :: 0 <= i < j < n ==> heights[i] > heights[j])
    && (forall i :: 0 <= i < n ==> next < heights[i] <= start.nHeight && heights[i] == Clamp(start.nHeight - Back(i)))
    && (forall i :: 0 <= i < n ==> vHave[i] == start.Ancestor(heights[i]).hash)
    && nStep == (if n <= 10 then 1 else Pow2(n - 10))
    && next == Clamp(start.nHeight - Back(n))
  }

  function Clamp(h: int): nat { if h > 0 then h else 0 }

  /** How far below the start the n-th entry lies. */
  function Back(n: nat): nat { if n <= 11 then n else 9 + Pow2(n - 10) }

  lemma LocatorStart(start: BlockIndex)
    requires start.Linked()
    ensures LocatorSoFar(start, [], [], start.nHeight, 1)
    ensures start.Ancestor(start.nHeight) == start
  {
  }

  lemma BackStep(n: nat)
    ensures Back(n + 1) == Back(n) + if n <= 10 then 1 else Pow2(n - 10)
  {
    if n == 11 {
      assert Pow2(2) == 2 * Pow2(1) && Pow2(1) == 2 * Pow2(0);
    }
  }

  lemma LocatorNext(start: BlockIndex, vHave: seq<BlockHash>, heights: seq<nat>, next: nat, nStep: int)
    requires start.Linked() && |heights| == |vHave| && LocatorSoFar(start, vHave, heights, next, nStep)
    requires 0 < next <= start.nHeight
    ensures nStep >= 1
    ensures LocatorSoFar(start, vHave + [start.Ancestor(next).hash], heights + [next], Clamp(next - nStep),
                         if |vHave| + 1 > 10 then nStep * 2 else nStep)
  {
    hide BlockIndex.Linked, BlockIndex.Ancestor, Back;
    var n := |vHave|;
    BackStep(n);
    assert nStep >= 1;
    if n == 10 {
      assert Pow2(1) == 2 * Pow2(0);
    }
  }

  /** A list that ends now is as short as promised. */
  lemma LocatorShort(start: BlockIndex, vHave: seq<BlockHash>, heights: seq<nat>, next: nat, nStep: int)
    requires start.Linked() && |heights| == |vHave| && LocatorSoFar(start, vHave, heights, next, nStep)
    ensures forall bits: nat :: start.nHeight + 1 <= Pow2(bits) ==> |vHave| + 1 <= 12 + bits
  {
    var n := |vHave|;
    forall bits: nat | start.nHeight + 1 <= Pow2(bits)
      ensures n + 1 <= 12 + bits
    {
      if n >= 13 {
        assert start.nHeight > Back(n - 1);
        if n - 11 >= bits {
          Pow2Grows(bits, n - 11);
        }
      } else if n == 12 {
        assert start.nHeight > Back(n - 1);
        assert Pow2(0) == 1;
      }
    }
  }

  lemma LocatorEnds(start: BlockIndex, vHave: seq<BlockHash>, heights: seq<nat>, nStep: int)
    requires start.Linked() && |heights| == |vHave| && LocatorSoFar(start, vHave, heights, 0, nStep)
    ensures IsLocator(start, vHave + [start.Ancestor(0).hash], heights + [0])
  {
    hide Back, Dense, BlockIndex.Ancestor, BlockIndex.Linked;
    LocatorShort(start, vHave, heights, 0, nStep);
    LocatorDense(start.nHeight, heights + [0]);
  }

  lemma LocatorDense(top: nat, heights: seq<nat>)
    requires |heights| > 0 && heights[|heights| - 1] == 0
    requires forall i :: 0 <= i < |heights| ==> heights[i] == Clamp(top - Back(i))
    ensures Dense(top, heights)
  {
    var n := |heights| - 1;
    assert top <= Back(n);
    forall d | 0 <= d <= top
      ensures exists i :: 0 <= i < |heights| && d <= top - heights[i] <= 2 * d
    {
      var i := DepthReached(n, d);
      assert d <= top - heights[i] <= 2 * d;
    }
  }

  /** The first entry that is deep enough is not much too deep. */
  lemma {:induction false} DepthReached(n: nat, d: nat) returns (i: nat)
    requires d <= Back(n)
    ensures i <= n && d <= Back(i) <= 2 * d
    decreases n
  {
    if n > 0 && d <= Back(n - 1) {
      i := DepthReached(n - 1, d);
    } else {
      i := n;
      if n > 0 {
        BackAtMostDoubles(n - 1);
      }
    }
  }

  lemma BackAtMostDoubles(n: nat)
    ensures Back(n + 1) <= 2 * Back(n) + 1
  {
    BackStep(n);
  }
}
