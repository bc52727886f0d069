/** Choosing the chain to work towards: the best candidate whose path to the active chain is usable. */
module MostWork {
  import opened Basics
  import opened BlockArrival

  /** A block is on the active chain, or it and its ancestors down to there are not bad. */
  predicate Usable(t: Tree, active: set<Id>, bad: set<Id>, x: Id)
    requires Rooted(t) && x in t
    decreases t[x].nHeight
  {
    x in active || (x !in bad && (t[x].pprev.Some? ==> Usable(t, active, bad, t[x].pprev.value)))
  }

  /** Calling more blocks bad changes nothing if they were unusable anyway. */
  lemma {:induction false} UnusableAnyway(t: Tree, active: set<Id>, bad: set<Id>, more: set<Id>, x: Id)
    requires Rooted(t) && x in t && forall y :: y in more ==> y in t && !Usable(t, active, bad, y)
    ensures Usable(t, active, bad + more, x) <==> Usable(t, active, bad, x)
    decreases t[x].nHeight
  {
    if t[x].pprev.Some? {
      UnusableAnyway(t, active, bad, more, t[x].pprev.value);
    }
  }

  /** The blocks from x down to an ancestor y, both included. */
  function Segment(t: Tree, x: Id, y: Id): (s: set<Id>)
    requires Rooted(t) && x in t
    ensures x in s && forall z :: z in s ==> z in t
    decreases t[x].nHeight
  {
    if x == y || t[x].pprev.None? then {x} else {x} + Segment(t, t[x].pprev.value, y)
  }

  /** Going down from x, y is the first block that is bad, and the active chain is not reached before. */
  predicate FirstBad(t: Tree, active: set<Id>, bad: set<Id>, x: Id, y: Id)
    requires Rooted(t) && x in t
    decreases t[x].nHeight
  {
    x !in active && if x in bad then x == y else t[x].pprev.Some? && FirstBad(t, active, bad, t[x].pprev.value, y)
  }

  /** Everything down to the first bad block is unusable. */
  lemma {:induction false} SegmentUnusable(t: Tree, active: set<Id>, bad: set<Id>, x: Id, y: Id, z: Id)
    requires Rooted(t) && x in t && FirstBad(t, active, bad, x, y) && z in Segment(t, x, y)
    ensures z in t && !Usable(t, active, bad, z) && FirstBad(t, active, bad, z, y)
    decreases t[x].nHeight
  {
    if x !in bad {
      var p := t[x].pprev.value;
      SegmentUnusable(t, active, bad, p, y, if x != y && z in Segment(t, p, y) then z else p);
    }
  }

  predicate Keyed(t: Tree, seqIds: map<Id, nat>, s: set<Id>) { forall x :: x in s ==> x in t && x in seqIds }

  /** The last of a set in the candidate order. */
  predicate IsBest(t: Tree, seqIds: map<Id, nat>, s: set<Id>, m: Id)
    requires Keyed(t, seqIds, s)
  {
    m in s && forall x :: x in s ==> !Less(KeyIn(t, seqIds, m), KeyIn(t, seqIds, x))
  }

  /** A set that is not empty has exactly one best block. */
  lemma {:induction false} BestExists(t: Tree, seqIds: map<Id, nat>, s: set<Id>) returns (m: Id)
    requires Keyed(t, seqIds, s) && s != {}
    ensures IsBest(t, seqIds, s, m)
    decreases |s|
  {
    m :| m in s;
    var rest := s - {m};
    if rest == {} {
      assert s == {m};
    } else {
      var r := BestExists(t, seqIds, rest);
      if Less(KeyIn(t, seqIds, m), KeyIn(t, seqIds, r)) {
        m := r;
      } else {
        forall x | x in s
          ensures !Less(KeyIn(t, seqIds, m), KeyIn(t, seqIds, x))
        {
          assert x == m || x in rest;
          LessIsTotalOrder(KeyIn(t, seqIds, m), KeyIn(t, seqIds, x), KeyIn(t, seqIds, r));
          LessIsTotalOrder(KeyIn(t, seqIds, r), KeyIn(t, seqIds, x), KeyIn(t, seqIds, m));
        }
      }
    }
  }

  /** The first of a set in the candidate order. */
  predicate IsWorst(t: Tree, seqIds: map<Id, nat>, s: set<Id>, m: Id)
    requires Keyed(t, seqIds, s)
  {
    m in s && forall x :: x in s ==> !Less(KeyIn(t, seqIds, x), KeyIn(t, seqIds, m))
  }

  lemma {:induction false} WorstExists(t: Tree, seqIds: map<Id, nat>, s: set<Id>) returns (m: Id)
    requires Keyed(t, seqIds, s) && s != {}
    ensures IsWorst(t, seqIds, s, m)
    decreases |s|
  {
    m :| m in s;
    var rest := s - {m};
    if rest == {} {
      assert s == {m};
    } else {
      var r := WorstExists(t, seqIds, rest);
      if Less(KeyIn(t, seqIds, r), KeyIn(t, seqIds, m)) {
        m := r;
      } else {
        forall x | x in s
          ensures !Less(KeyIn(t, seqIds, x), KeyIn(t, seqIds, m))
        {
          assert x == m || x in rest;
          LessIsTotalOrder(KeyIn(t, seqIds, x), KeyIn(t, seqIds, m), KeyIn(t, seqIds, r));
          LessIsTotalOrder(KeyIn(t, seqIds, m), KeyIn(t, seqIds, r), KeyIn(t, seqIds, x));
        }
      }
    }
  }

  lemma Fewer(s: set<Id>, s': set<Id>, x: Id)
    requires s' <= s && x in s && x !in s'
    ensures |s'| < |s|
  {
    assert s' <= s - {x};
    CardMonotone(s', s - {x});
  }

  lemma {:induction false} CardMonotone(a: set<Id>, b: set<Id>)
    requires a <= b
    ensures |a| <= |b|
    decreases |a|
  {
    if a != {} {
      var x :| x in a;
      CardMonotone(a - {x}, b - {x});
    }
  }

  /** Without pruning, linked blocks without a failure on their path are usable, whatever the active chain. */
  lemma {:induction false} UnfailedUsable(i: Index, linked: set<Id>, active: set<Id>, haveData: set<Id>, failed: set<Id>, x: Id)
    requires Rooted(i.tree) && LinkedRight(i.tree, i.nTx, linked) && linked <= haveData && x in linked && Unfailed(i.tree, failed, x)
    ensures Usable(i.tree, active, failed + (i.tree.Keys - haveData), x)
    decreases i.tree[x].nHeight
  {
    assert ParentIn(i.tree, x, linked);
    if i.tree[x].pprev.Some? {
      UnfailedUsable(i, linked, active, haveData, failed, i.tree[x].pprev.value);
    }
  }

  /** Marking unusable blocks as failed leaves a path without failures alone. */
  lemma {:induction false} StaysUnfailed(i: Index, linked: set<Id>, active: set<Id>, haveData: set<Id>, failed: set<Id>, more: set<Id>, x: Id)
    requires Rooted(i.tree) && LinkedRight(i.tree, i.nTx, linked) && linked <= haveData && x in linked && Unfailed(i.tree, failed, x)
    requires forall y :: y in more && y !in failed ==> y in i.tree && !Usable(i.tree, active, failed + (i.tree.Keys - haveData), y)
    ensures Unfailed(i.tree, more, x)
    decreases i.tree[x].nHeight
  {
    hide Usable;
    UnfailedUsable(i, linked, active, haveData, failed, x);
    assert ParentIn(i.tree, x, linked);
    if i.tree[x].pprev.Some? {
      StaysUnfailed(i, linked, active, haveData, failed, more, i.tree[x].pprev.value);
    }
  }

  /** Dropping and marking only unusable blocks keeps complete candidates complete. */
  lemma SelectCompletes(i: Index, linked: set<Id>, active: set<Id>, haveData: set<Id>, failed: set<Id>, more: set<Id>,
                        before: set<Id>, after: set<Id>, best: Option<Id>)
    requires Known(i, linked) && LinkedRight(i.tree, i.nTx, linked) && linked <= haveData && failed <= more && after <= before
    requires Complete(i, linked, failed, before, best)
    requires forall x :: x in before && x !in after ==> x in i.tree && !Usable(i.tree, active, failed + (i.tree.Keys - haveData), x)
    requires forall y :: y in more && y !in failed ==> y in i.tree && !Usable(i.tree, active, failed + (i.tree.Keys - haveData), y)
    ensures Complete(i, linked, more, after, best)
  {
    hide Usable, Unfailed, Less, LinkedRight, Rooted;
    if best.Some? {
      UnfailedUsable(i, linked, active, haveData, failed, best.value);
      StaysUnfailed(i, linked, active, haveData, failed, more, best.value);
    }
    forall x | x in linked && Unfailed(i.tree, more, x) && Eligible(i, best, x)
      ensures x in after
    {
      FewerFailed(i.tree, failed, more, x);
      UnfailedUsable(i, linked, active, haveData, failed, x);
    }
  }

  class ChainSelector {
    const tree: Tree
    const seqIds: map<Id, nat>
    const haveData: set<Id>
    const nChainTx: map<Id, nat>
    ghost const index: Index      // where the fields come from
    ghost const linked: set<Id>   // the blocks whose ancestors have all arrived
    var active: set<Id>           // the blocks of the active chain
    var failed: set<Id>
    var setBlockIndexCandidates: set<Id>
    var mapBlocksUnlinked: map<Id, seq<Id>>
    var pindexBestInvalid: Option<Id>

    /** Failed, or without data. */
    ghost function Bad(): set<Id>
      reads this`failed
    {
      failed + (tree.Keys - haveData)
    }

    ghost predicate Valid()
      reads this
    {
      && Right(index, linked) && index.tree == tree && index.nSequenceId == seqIds && index.nChainTx == nChainTx
      && Rooted(tree) && Keyed(tree, seqIds, linked) && setBlockIndexCandidates <= linked && failed <= tree.Keys
      && (pindexBestInvalid.Some? ==> pindexBestInvalid.value in tree)
    }

    constructor (index: Index, ghost linked: set<Id>, active: set<Id>, haveData: set<Id>, failed: set<Id>, candidates: set<Id>)
      requires Right(index, linked) && candidates <= linked && failed <= index.tree.Keys
      ensures Valid() && setBlockIndexCandidates == candidates && this.failed == failed
      ensures this.index == index && this.linked == linked && this.active == active && this.haveData == haveData
    {
      RightKnown(index, linked);
      tree, seqIds, nChainTx, this.index, this.linked := index.tree, index.nSequenceId, index.nChainTx, index, linked;
      this.active, this.haveData, this.failed := active, haveData, failed;
      setBlockIndexCandidates, mapBlocksUnlinked, pindexBestInvalid := candidates, map[], None;
    }

    /** Walk down from a candidate to the active chain, stopping at a block that failed or misses data. */
    method FindBad(pindexNew: Id) returns (bad: Option<Id>)
      requires Valid() && pindexNew in linked
      ensures bad.None? ==> Usable(tree, active, Bad(), pindexNew)
      ensures bad.Some? ==> FirstBad(tree, active, Bad(), pindexNew, bad.value) && bad.value in Bad() && bad.value in tree
    {
      RightKnown(index, linked);
      var pindexTest := Some(pindexNew);
      while pindexTest.Some? && pindexTest.value !in active
        invariant pindexTest.Some? ==> pindexTest.value in linked
        invariant pindexTest.None? ==> Usable(tree, active, Bad(), pindexNew)
        invariant pindexTest.Some? && Usable(tree, active, Bad(), pindexTest.value) ==> Usable(tree, active, Bad(), pindexNew)
        invariant pindexTest.Some? ==> forall y :: FirstBad(tree, active, Bad(), pindexTest.value, y)
                                                   ==> FirstBad(tree, active, Bad(), pindexNew, y)
        decreases if pindexTest.Some? then tree[pindexTest.value].nHeight + 1 else 0
      {
        var x := pindexTest.value;
        assert nChainTx[x] != 0;
        if x in failed || x !in haveData {
          assert FirstBad(tree, active, Bad(), x, x);
          return Some(x);
        }
        pindexTest := tree[x].pprev;
      }
      bad := None;
    }

    /** Drop a candidate above a bad block: it is marked failed, or it waits for its parent. */
    method Disown(x: Id, p: Id, fFailedChain: bool)
      modifies this`failed, this`setBlockIndexCandidates, this`mapBlocksUnlinked
      ensures setBlockIndexCandidates == old(setBlockIndexCandidates) - {x}
      ensures failed == if fFailedChain then old(failed) + {x} else old(failed)
      ensures !fFailedChain ==> x in Kids(mapBlocksUnlinked, p)
      ensures forall q, y :: y in Kids(old(mapBlocksUnlinked), q) ==> y in Kids(mapBlocksUnlinked, q)
    {
      if fFailedChain {
        failed := failed + {x};
      } else {
        mapBlocksUnlinked := mapBlocksUnlinked[p := Kids(mapBlocksUnlinked, p) + [x]];
      }
      setBlockIndexCandidates := setBlockIndexCandidates - {x};
    }

    /** Take a block and its ancestors down to a bad one off the candidates. Above a failed block they are marked
        failed; above a block without data they wait for it. */
    method EraseDownTo(pindexNew: Id, pindexTest: Id)
      requires Valid() && pindexNew in tree && FirstBad(tree, active, Bad(), pindexNew, pindexTest)
      modifies this`failed, this`setBlockIndexCandidates, this`mapBlocksUnlinked
      ensures Valid() && setBlockIndexCandidates == old(setBlockIndexCandidates) - Segment(tree, pindexNew, pindexTest)
      ensures failed == if pindexTest in old(failed) then old(failed) + Segment(tree, pindexNew, pindexTest) else old(failed)
      ensures pindexTest !in old(failed) ==> forall y :: y in Segment(tree, pindexNew, pindexTest) && y != pindexTest ==>
                tree[y].pprev.Some? && y in Kids(mapBlocksUnlinked, tree[y].pprev.value)
    {
      hide Usable, Less, Right;
      var fFailedChain := pindexTest in failed;
      var pindexFailed := pindexNew;
      ghost var done: set<Id> := {};
      while pindexFailed != pindexTest
        invariant Valid() && pindexFailed in tree && FirstBad(tree, active, old(Bad()), pindexFailed, pindexTest)
        invariant done + Segment(tree, pindexFailed, pindexTest) == Segment(tree, pindexNew, pindexTest) && pindexTest !in done
        invariant setBlockIndexCandidates == old(setBlockIndexCandidates) - done
        invariant failed == if fFailedChain then old(failed) + done else old(failed)
        invariant !fFailedChain ==> forall y :: y in done ==>
                    y in tree && tree[y].pprev.Some? && y in Kids(mapBlocksUnlinked, tree[y].pprev.value)
        decreases tree[pindexFailed].nHeight
      {
        var p := tree[pindexFailed].pprev.value;
        Disown(pindexFailed, p, fFailedChain);
        done := done + {pindexFailed};
        pindexFailed := p;
      }
      setBlockIndexCandidates := setBlockIndexCandidates - {pindexTest};
    }

    /** One round: the best candidate, if its path is usable; otherwise the unusable part of its path is erased. */
    method TryBest() returns (best: Option<Id>)
      requires Valid() && setBlockIndexCandidates != {}
      modifies this`failed, this`setBlockIndexCandidates, this`mapBlocksUnlinked, this`pindexBestInvalid
      ensures Valid() && setBlockIndexCandidates <= old(setBlockIndexCandidates)
      ensures forall x :: x in tree ==> (Usable(tree, active, Bad(), x) <==> Usable(tree, active, old(Bad()), x))
      ensures old(failed) <= failed && forall x :: x in failed && x !in old(failed) ==> x in tree && !Usable(tree, active, old(Bad()), x)
      ensures forall x :: x in old(setBlockIndexCandidates) && x !in setBlockIndexCandidates ==> !Usable(tree, active, old(Bad()), x)
      ensures best.Some? ==>
                && setBlockIndexCandidates == old(setBlockIndexCandidates) && best.value in setBlockIndexCandidates
                && IsBest(tree, seqIds, setBlockIndexCandidates, best.value) && Usable(tree, active, Bad(), best.value)
      ensures best.None? ==> |setBlockIndexCandidates| < |old(setBlockIndexCandidates)|
    {
      hide Usable, FirstBad, Less, Segment, Rooted, Right;
      ghost var last := BestExists(tree, seqIds, setBlockIndexCandidates);
      var pindexNew :| pindexNew in setBlockIndexCandidates && IsBest(tree, seqIds, setBlockIndexCandidates, pindexNew);
      var bad := FindBad(pindexNew);
      if bad.None? {
        return Some(pindexNew);
      }
      var pindexTest := bad.value;
      if pindexTest in failed
         && (pindexBestInvalid.None? || tree[pindexNew].nChainWork > tree[pindexBestInvalid.value].nChainWork) {
        pindexBestInvalid := Some(pindexNew);
      }
      ghost var gone := Segment(tree, pindexNew, pindexTest);
      forall z | z in gone
        ensures z in tree && !Usable(tree, active, Bad(), z)
      {
        SegmentUnusable(tree, active, Bad(), pindexNew, pindexTest, z);
      }
      EraseDownTo(pindexNew, pindexTest);
      ghost var marked := if pindexTest in old(failed) then gone else {};
      assert Bad() == old(Bad()) + marked;
      forall x | x in tree
        ensures Usable(tree, active, Bad(), x) <==> Usable(tree, active, old(Bad()), x)
      {
        UnusableAnyway(tree, active, old(Bad()), marked, x);
      }
      Fewer(old(setBlockIndexCandidates), setBlockIndexCandidates, pindexNew);
      best := None;
    }

    /** The best candidate whose path to the active chain has no failed block and no block without data, if there
        is any. Candidates are dropped only if their path has such a block. */
    method FindMostWorkChain() returns (best: Option<Id>)
      requires Valid()
      modifies this`failed, this`setBlockIndexCandidates, this`mapBlocksUnlinked, this`pindexBestInvalid
      ensures Valid() && setBlockIndexCandidates <= old(setBlockIndexCandidates)
      ensures forall x :: x in old(setBlockIndexCandidates) && x !in setBlockIndexCandidates ==> !Usable(tree, active, old(Bad()), x)
      ensures best.Some? ==> best.value in old(setBlockIndexCandidates) && Usable(tree, active, old(Bad()), best.value)
      ensures best.Some? ==> forall x :: x in old(setBlockIndexCandidates) && Usable(tree, active, old(Bad()), x) ==>
                                         Preferred(tree, seqIds, best.value, x)
      ensures best.None? <==> forall x :: x in old(setBlockIndexCandidates) ==> !Usable(tree, active, old(Bad()), x)
      ensures forall x :: x in tree ==> (Usable(tree, active, Bad(), x) <==> Usable(tree, active, old(Bad()), x))
      ensures old(failed) <= failed && forall x :: x in failed && x !in old(failed) ==> x in tree && !Usable(tree, active, old(Bad()), x)
      ensures linked <= haveData ==> SelectionKeeps(old(failed), old(setBlockIndexCandidates))
    {
      hide Usable, Less, Preferred, SelectionKeeps;
      RightKnown(index, linked);
      best := None;
      while setBlockIndexCandidates != {}
        invariant Valid() && setBlockIndexCandidates <= old(setBlockIndexCandidates)
        invariant forall x :: x in tree ==> (Usable(tree, active, Bad(), x) <==> Usable(tree, active, old(Bad()), x))
        invariant forall x :: x in old(setBlockIndexCandidates) && x !in setBlockIndexCandidates ==>
                    !Usable(tree, active, old(Bad()), x)
        invariant old(failed) <= failed
        invariant forall x :: x in failed && x !in old(failed) ==> x in tree && !Usable(tree, active, old(Bad()), x)
        invariant best.None?
        decreases |setBlockIndexCandidates|
      {
        best := TryBest();
        if best.Some? {
          break;
        }
      }
      if best.Some? {
        forall x | x in old(setBlockIndexCandidates) && Usable(tree, active, old(Bad()), x)
          ensures Preferred(tree, seqIds, best.value, x)
        {
          PreferredIff(tree, seqIds, best.value, x);
        }
      }
      if linked <= haveData {
        Selected(old(failed), old(setBlockIndexCandidates));
      }
    }

    /** Complete candidates stay complete when only unusable blocks were dropped and marked. */
    ghost predicate SelectionKeeps(failedBefore: set<Id>, before: set<Id>)
      reads this
    {
      Known(index, linked) && forall best: Option<Id> ::
        Complete(index, linked, failedBefore, before, best) ==> Complete(index, linked, failed, setBlockIndexCandidates, best)
    }

    lemma Selected(failedBefore: set<Id>, before: set<Id>)
      requires Valid() && linked <= haveData && failedBefore <= failed && setBlockIndexCandidates <= before
      requires forall x :: x in before && x !in setBlockIndexCandidates ==>
                 x in tree && !Usable(tree, active, failedBefore + (tree.Keys - haveData), x)
      requires forall x :: x in failed && x !in failedBefore ==> x in tree && !Usable(tree, active, failedBefore + (tree.Keys - haveData), x)
      ensures SelectionKeeps(failedBefore, before)
    {
      hide Usable, Complete, Known;
      RightKnown(index, linked);
      forall best: Option<Id> | Complete(index, linked, failedBefore, before, best)
        ensures Complete(index, linked, failed, setBlockIndexCandidates, best)
      {
        SelectCompletes(index, linked, active, haveData, failedBefore, failed, before, setBlockIndexCandidates, best);
      }
    }

    /** Remember the invalid block with the most work. */
    method InvalidChainFound(x: Id)
      requires Valid() && x in tree
      modifies this`pindexBestInvalid
      ensures Valid() && pindexBestInvalid.Some? && tree[pindexBestInvalid.value].nChainWork >= tree[x].nChainWork
      ensures old(pindexBestInvalid).Some? ==> tree[pindexBestInvalid.value].nChainWork >= tree[old(pindexBestInvalid).value].nChainWork
      ensures pindexBestInvalid == Some(x) || pindexBestInvalid == old(pindexBestInvalid)
    {
      if pindexBestInvalid.None? || tree[x].nChainWork > tree[pindexBestInvalid.value].nChainWork {
        pindexBestInvalid := Some(x);
      }
    }

    /** A block was refused: it is marked and is no candidate any more. */
    method InvalidBlockFound(x: Id)
      requires Valid() && x in tree
      modifies this`failed, this`setBlockIndexCandidates, this`pindexBestInvalid
      ensures Valid() && failed == old(failed) + {x} && setBlockIndexCandidates == old(setBlockIndexCandidates) - {x}
    {
      failed := failed + {x};
      setBlockIndexCandidates := setBlockIndexCandidates - {x};
      InvalidChainFound(x);
    }

    /** Drop the candidates worse than a tip that did not fail, worst first. If the candidates were complete, they still
        are, and some candidate is not worse than the tip, so the assertion that some are left holds. */
    method PruneBlockIndexCandidates(tip: Id, ghost best: Option<Id>) returns (ghost best': Option<Id>)
      requires Valid() && tip in linked && Known(index, linked) && Unfailed(index.tree, failed, tip)
      requires Complete(index, linked, failed, setBlockIndexCandidates, best)
      modifies this`setBlockIndexCandidates
      ensures Valid() && setBlockIndexCandidates != {}
      ensures forall x :: x in setBlockIndexCandidates <==>
                x in old(setBlockIndexCandidates) && !Less(KeyIn(tree, seqIds, x), KeyIn(tree, seqIds, tip))
      ensures Complete(index, linked, failed, setBlockIndexCandidates, best') && Covers(index, linked, best', Some(tip))
      ensures best' == best || best' == Some(tip)
    {
      hide Less, Complete, Unfailed, Right, Rooted, Known, Covers;
      best' := TipCovered(index, linked, failed, setBlockIndexCandidates, best, tip);
      CoveringCandidate(index, linked, failed, setBlockIndexCandidates, best', tip);
      var more := true;
      while more
        invariant Valid() && setBlockIndexCandidates <= old(setBlockIndexCandidates)
        invariant forall x :: x in old(setBlockIndexCandidates) && !Less(KeyIn(tree, seqIds, x), KeyIn(tree, seqIds, tip)) ==>
                    x in setBlockIndexCandidates
        invariant !more ==> forall x :: x in setBlockIndexCandidates ==> !Less(KeyIn(tree, seqIds, x), KeyIn(tree, seqIds, tip))
        decreases |setBlockIndexCandidates|, more
      {
        ghost var first := WorstExists(tree, seqIds, setBlockIndexCandidates);
        var worst :| worst in setBlockIndexCandidates && IsWorst(tree, seqIds, setBlockIndexCandidates, worst);
        if Less(KeyIn(tree, seqIds, worst), KeyIn(tree, seqIds, tip)) {
          setBlockIndexCandidates := setBlockIndexCandidates - {worst};
        } else {
          assert IsWorst(tree, seqIds, setBlockIndexCandidates, worst);
          forall x | x in setBlockIndexCandidates
            ensures !Less(KeyIn(tree, seqIds, x), KeyIn(tree, seqIds, tip))
          {
            LessIsTotalOrder(KeyIn(tree, seqIds, worst), KeyIn(tree, seqIds, x), KeyIn(tree, seqIds, tip));
            LessIsTotalOrder(KeyIn(tree, seqIds, x), KeyIn(tree, seqIds, tip), KeyIn(tree, seqIds, worst));
          }
          more := false;
        }
      }
      PruneCompletes(index, linked, failed, old(setBlockIndexCandidates), best', tip, setBlockIndexCandidates);
      assert best'.value in setBlockIndexCandidates;
    }
  }

  lemma CoveringCandidate(i: Index, linked: set<Id>, failed: set<Id>, candidates: set<Id>, best: Option<Id>, tip: Id)
    requires Known(i, linked) && tip in linked && Complete(i, linked, failed, candidates, best) && Covers(i, linked, best, Some(tip))
    ensures best.Some? && best.value in candidates && best.value in i.tree && best.value in i.nSequenceId
    ensures tip in i.tree && tip in i.nSequenceId && !Less(KeyOf(i, best.value), KeyOf(i, tip))
  {
  }
}
