/**
 Block data arriving in any order: which blocks are linked to the genesis block by data, in what
 order they were linked, and what waits for its parent.
 */
module BlockArrival {
  import opened Basics
  type Id = nat

  /** What the header of a block fixes: its parent, its height and the work up to it. */
  datatype Header = Header(pprev: Option<Id>, nHeight: nat, nChainWork: nat)

  type Tree = map<Id, Header>

  /** Parents come first. */
  predicate Rooted(t: Tree) {
    forall x :: x in t && t[x].pprev.Some? ==> t[x].pprev.value in t && t[x].nHeight == t[t[x].pprev.value].nHeight + 1
  }

  // --- the meaning of the fields ----------------------------------------------------------

  /** A block and all its ancestors have arrived. */
  predicate AllArrived(t: Tree, nTx: map<Id, nat>, x: Id)
    requires Rooted(t) && x in t
    decreases t[x].nHeight
  {
    x in nTx && (t[x].pprev.Some? ==> AllArrived(t, nTx, t[x].pprev.value))
  }

  /** Transactions on the path from the genesis block to a block. */
  function PathTx(t: Tree, nTx: map<Id, nat>, x: Id): (n: nat)
    requires Rooted(t) && x in t && AllArrived(t, nTx, x)
    decreases t[x].nHeight
  {
    nTx[x] + if t[x].pprev.Some? then PathTx(t, nTx, t[x].pprev.value) else 0
  }

  // --- candidates ------------------------------------------------------------------------------

  /** What the candidate order looks at; blocks are told apart by their address in the end. */
  datatype Key = Key(work: nat, seqId: nat, address: nat)

  /** Less work, or arrived later, or at a higher address. */
  predicate Less(a: Key, b: Key) {
    || a.work < b.work
    || (a.work == b.work && (a.seqId > b.seqId || (a.seqId == b.seqId && a.address > b.address)))
  }

  /** The candidate order is a strict total order. */
  lemma LessIsTotalOrder(a: Key, b: Key, c: Key)
    ensures !Less(a, a)
    ensures Less(a, b) && Less(b, c) ==> Less(a, c)
    ensures Less(a, b) || Less(b, a) || a == b
    ensures !(Less(a, b) && Less(b, a))
  {
  }

  // --- linking -----------------------------------------------------------------------------------

  /** The parent of a block, if any, is in a set. */
  predicate ParentIn(t: Tree, x: Id, s: set<Id>)
    requires x in t
  {
    t[x].pprev.Some? ==> t[x].pprev.value in s
  }

  /** Blocks that have arrived but are not linked. */
  predicate Waits(t: Tree, nTx: map<Id, nat>, linked: set<Id>, queued: seq<Id>, p: Id, c: Id) {
    c in t && t[c].pprev == Some(p) && c in nTx && c !in linked && c !in queued
  }

  /** The unlinked blocks, under their parents, each once; none of those parents is linked. */
  ghost predicate UnlinkedRight(t: Tree, nTx: map<Id, nat>, linked: set<Id>, queued: seq<Id>, unlinked: map<Id, seq<Id>>) {
    && (forall p :: p in unlinked ==> Distinct(unlinked[p]) && p !in linked)
    && (forall p, c :: p in unlinked && c in unlinked[p] ==> Waits(t, nTx, linked, queued, p, c))
    && (forall p, c :: Waits(t, nTx, linked, queued, p, c) ==> p in unlinked && c in unlinked[p])
  }

  /** Linked blocks have arrived and have linked parents. */
  predicate LinkedRight(t: Tree, nTx: map<Id, nat>, linked: set<Id>) {
    forall x :: x in linked ==> x in t && x in nTx && ParentIn(t, x, linked)
  }

  /** With nothing queued, the linked blocks are exactly those whose ancestors have all arrived. */
  lemma {:induction false} LinkedIffArrived(t: Tree, nTx: map<Id, nat>, linked: set<Id>, unlinked: map<Id, seq<Id>>, x: Id)
    requires Rooted(t) && x in t && LinkedRight(t, nTx, linked) && UnlinkedRight(t, nTx, linked, [], unlinked)
    requires forall y :: y in t && y in nTx && t[y].pprev.None? ==> y in linked
    ensures x in linked <==> AllArrived(t, nTx, x)
    decreases t[x].nHeight
  {
    if t[x].pprev.Some? {
      var p := t[x].pprev.value;
      LinkedIffArrived(t, nTx, linked, unlinked, p);
      assert x in nTx && x !in linked ==> Waits(t, nTx, linked, [], p, x);
    }
  }

  /** Linking under way: the queue holds blocks that can be linked next. */
  ghost predicate Linking(t: Tree, nTx: map<Id, nat>, linked: set<Id>, queue: seq<Id>, unlinked: map<Id, seq<Id>>) {
    && LinkedRight(t, nTx, linked)
    && Distinct(queue)
    && (forall x :: x in queue ==> x in t && x in nTx && x !in linked && ParentIn(t, x, linked))
    && UnlinkedRight(t, nTx, linked, queue, unlinked)
    && (forall y :: y in t && y in nTx && t[y].pprev.None? ==> y in linked || y in queue)
  }

  function Kids(unlinked: map<Id, seq<Id>>, x: Id): seq<Id> { if x in unlinked then unlinked[x] else [] }

  /** The next block in the queue is linked, and the blocks that waited for it are queued. */
  lemma LinkNext(t: Tree, nTx: map<Id, nat>, linked: set<Id>, queue: seq<Id>, unlinked: map<Id, seq<Id>>)
    requires Linking(t, nTx, linked, queue, unlinked) && queue != []
    ensures Linking(t, nTx, linked + {queue[0]}, queue[1..] + Kids(unlinked, queue[0]), unlinked - {queue[0]})
  {
    var x, kids := queue[0], Kids(unlinked, queue[0]);
    var linked', queue', unlinked' := linked + {x}, queue[1..] + kids, unlinked - {x};
    assert queue == [x] + queue[1..];
    assert x !in queue[1..];
    assert forall c :: c in kids ==> Waits(t, nTx, linked, queue, x, c);
    assert forall c :: c in queue' <==> c in queue[1..] || c in kids;
    KidsJoin(queue, kids);
    UnlinkNext(t, nTx, linked, queue, unlinked);
  }

  lemma KidsJoin(queue: seq<Id>, kids: seq<Id>)
    requires Distinct(queue) && Distinct(kids) && queue != [] && forall c :: c in kids ==> c !in queue
    ensures Distinct(queue[1..] + kids)
  {
    var rest := queue[1..];
    var both := rest + kids;
    forall i, j | 0 <= i < j < |both|
      ensures both[i] != both[j]
    {
      if j < |rest| {
        assert both[i] == queue[i + 1] && both[j] == queue[j + 1];
      } else if i < |rest| {
        assert both[i] in queue && both[j] in kids;
      } else {
        assert both[i] == kids[i - |rest|] && both[j] == kids[j - |rest|];
      }
    }
  }

  lemma UnlinkNext(t: Tree, nTx: map<Id, nat>, linked: set<Id>, queue: seq<Id>, unlinked: map<Id, seq<Id>>)
    requires queue != [] && UnlinkedRight(t, nTx, linked, queue, unlinked)
    ensures UnlinkedRight(t, nTx, linked + {queue[0]}, queue[1..] + Kids(unlinked, queue[0]), unlinked - {queue[0]})
  {
    var x, kids := queue[0], Kids(unlinked, queue[0]);
    var before, after := queue, queue[1..] + kids;
    assert queue == [x] + queue[1..];
    assert forall c :: c in queue[1..] + kids <==> c in queue[1..] || c in kids;
    assert forall c :: c in kids ==> Waits(t, nTx, linked, before, x, c);
    forall p, c | Waits(t, nTx, linked + {x}, after, p, c)
      ensures p in unlinked - {x} && c in (unlinked - {x})[p]
    {
      assert Waits(t, nTx, linked, before, p, c);
    }
    forall p, c | p in unlinked - {x} && c in (unlinked - {x})[p]
      ensures Waits(t, nTx, linked + {x}, after, p, c)
    {
      assert Waits(t, nTx, linked, before, p, c);
    }
  }

  // --- numbers ---------------------------------------------------------------------------------

  /** The fields that arrivals change. */
  datatype Index = Index(tree: Tree, nTx: map<Id, nat>, nChainTx: map<Id, nat>, nSequenceId: map<Id, nat>, nBlockSequenceId: nat,
                         unlinked: map<Id, seq<Id>>)

  /** Linked blocks have the transaction count of their path and a sequence number above their parent's;
      the others have neither. */
  predicate Numbered(i: Index, linked: set<Id>) {
    && i.tree.Keys == i.nChainTx.Keys == i.nSequenceId.Keys && i.nBlockSequenceId >= 1
    && (forall x :: x in i.tree && x !in linked ==> i.nChainTx[x] == 0 && i.nSequenceId[x] == 0)
    && (forall x :: x in linked ==> NumberedOne(i, x))
    && (forall x, y :: x in linked && y in linked && x != y ==>
          x in i.nSequenceId && y in i.nSequenceId && i.nSequenceId[x] != i.nSequenceId[y])
  }

  predicate NumberedOne(i: Index, x: Id) {
    && x in i.tree && x in i.nTx && i.nTx[x] > 0 && x in i.nChainTx && x in i.nSequenceId
    && 1 <= i.nSequenceId[x] < i.nBlockSequenceId
    && match i.tree[x].pprev
       case None => i.nChainTx[x] == i.nTx[x]
       case Some(p) => p in i.nChainTx && p in i.nSequenceId
                       && i.nChainTx[x] == i.nChainTx[p] + i.nTx[x] && i.nSequenceId[p] < i.nSequenceId[x]
  }

  /** The count a block gets when it is linked. */
  function CountOf(i: Index, x: Id): nat
    requires x in i.tree && x in i.nTx && (i.tree[x].pprev.Some? ==> i.tree[x].pprev.value in i.nChainTx)
  {
    (if i.tree[x].pprev.Some? then i.nChainTx[i.tree[x].pprev.value] else 0) + i.nTx[x]
  }

  /** Linking a block: it is counted and numbered, and the blocks that waited for it wait no more. */
  function LinkedOne(i: Index, x: Id): (r: Index)
    requires x in i.tree && x in i.nTx && (i.tree[x].pprev.Some? ==> i.tree[x].pprev.value in i.nChainTx)
  {
    i.(nChainTx := i.nChainTx[x := CountOf(i, x)], nSequenceId := i.nSequenceId[x := i.nBlockSequenceId],
       nBlockSequenceId := i.nBlockSequenceId + 1, unlinked := i.unlinked - {x})
  }

  lemma NumberNext(i: Index, linked: set<Id>, x: Id)
    requires Rooted(i.tree) && Numbered(i, linked) && LinkedRight(i.tree, i.nTx, linked)
    requires x in i.tree && x in i.nTx && i.nTx[x] > 0 && x !in linked && ParentIn(i.tree, x, linked)
    ensures i.tree[x].pprev.Some? ==> i.tree[x].pprev.value in i.nChainTx
    ensures Numbered(LinkedOne(i, x), linked + {x})
  {
    hide Rooted, NumberedOne, LinkedOne, LinkedRight;
    NumberSelf(i, linked, x);
    var r := LinkedOne(i, x);
    forall y | y in linked
      ensures NumberedOne(r, y) && y != x
    {
      NumberOther(i, linked, x, y);
    }
    forall y, z | y in linked + {x} && z in linked + {x} && y != z
      ensures y in r.nSequenceId && z in r.nSequenceId && r.nSequenceId[y] != r.nSequenceId[z]
    {
      NumbersDiffer(i, linked, x, y, z);
    }
    NumberNone(i, linked, x);
  }

  lemma NumberSelf(i: Index, linked: set<Id>, x: Id)
    requires Numbered(i, linked) && x in i.tree && x in i.nTx && i.nTx[x] > 0 && x !in linked && ParentIn(i.tree, x, linked)
    ensures i.tree[x].pprev.Some? ==> i.tree[x].pprev.value in i.nChainTx
    ensures NumberedOne(LinkedOne(i, x), x)
  {
    if i.tree[x].pprev.Some? {
      assert NumberedOne(i, i.tree[x].pprev.value);
    }
  }

  lemma NumberOther(i: Index, linked: set<Id>, x: Id, y: Id)
    requires Numbered(i, linked) && LinkedRight(i.tree, i.nTx, linked) && x in i.tree && x in i.nTx && x !in linked && y in linked
    requires i.tree[x].pprev.Some? ==> i.tree[x].pprev.value in i.nChainTx
    ensures NumberedOne(LinkedOne(i, x), y)
  {
    assert NumberedOne(i, y);
    assert ParentIn(i.tree, y, linked);
  }

  lemma NumbersDiffer(i: Index, linked: set<Id>, x: Id, y: Id, z: Id)
    requires Numbered(i, linked) && x in i.tree && x in i.nTx && x !in linked
    requires i.tree[x].pprev.Some? ==> i.tree[x].pprev.value in i.nChainTx
    requires (y == x || y in linked) && (z == x || z in linked) && y != z
    ensures var r := LinkedOne(i, x); y in r.nSequenceId && z in r.nSequenceId && r.nSequenceId[y] != r.nSequenceId[z]
  {
    assert y != x ==> NumberedOne(i, y);
    assert z != x ==> NumberedOne(i, z);
  }

  lemma NumberNone(i: Index, linked: set<Id>, x: Id)
    requires Numbered(i, linked) && x in i.tree && x in i.nTx
    requires i.tree[x].pprev.Some? ==> i.tree[x].pprev.value in i.nChainTx
    ensures var r := LinkedOne(i, x);
            && r.tree.Keys == r.nChainTx.Keys == r.nSequenceId.Keys && r.nBlockSequenceId >= 1
            && forall y :: y in r.tree && y !in linked + {x} ==> r.nChainTx[y] == 0 && r.nSequenceId[y] == 0
  {
    hide NumberedOne;
  }

  /** The count is the sum over the path. */
  lemma {:induction false} CountIsPathSum(i: Index, linked: set<Id>, x: Id)
    requires Rooted(i.tree) && Numbered(i, linked) && LinkedRight(i.tree, i.nTx, linked)
    requires x in linked && x in i.tree && AllArrived(i.tree, i.nTx, x)
    ensures i.nChainTx[x] == PathTx(i.tree, i.nTx, x) > 0
    decreases i.tree[x].nHeight
  {
    assert NumberedOne(i, x);
    if i.tree[x].pprev.Some? {
      CountIsPathSum(i, linked, i.tree[x].pprev.value);
    }
  }

  /** Linking under way, with a queue. */
  ghost predicate Underway(i: Index, linked: set<Id>, queue: seq<Id>) {
    && Rooted(i.tree) && (forall x :: x in i.nTx ==> x in i.tree && i.nTx[x] > 0)
    && Linking(i.tree, i.nTx, linked, queue, i.unlinked)
    && Numbered(i, linked)
  }

  /** Everything the fields promise between arrivals. */
  ghost predicate Right(i: Index, linked: set<Id>) { Underway(i, linked, []) }

  /** What is promised, in terms of arrivals alone: the count is not zero exactly when all ancestors have arrived
      and is then the sum over the path, parents have smaller sequence numbers, and a block waits for its parent
      exactly when it has arrived and some ancestor has not. */
  lemma ArrivalsDecide(i: Index, linked: set<Id>, x: Id)
    requires Right(i, linked) && x in i.tree
    ensures x in i.nChainTx && x in i.nSequenceId
    ensures i.nChainTx[x] == if AllArrived(i.tree, i.nTx, x) then PathTx(i.tree, i.nTx, x) else 0
    ensures i.nChainTx[x] != 0 <==> AllArrived(i.tree, i.nTx, x)
    ensures i.nSequenceId[x] != 0 <==> AllArrived(i.tree, i.nTx, x)
    ensures AllArrived(i.tree, i.nTx, x) && i.tree[x].pprev.Some? ==>
              i.tree[x].pprev.value in i.nSequenceId && i.nSequenceId[i.tree[x].pprev.value] < i.nSequenceId[x]
    ensures i.tree[x].pprev.Some? ==> (var p := i.tree[x].pprev.value;
              (x in i.nTx && !AllArrived(i.tree, i.nTx, x) <==> p in i.unlinked && x in i.unlinked[p]))
  {
    LinkedIffArrived(i.tree, i.nTx, linked, i.unlinked, x);
    if x in linked {
      CountIsPathSum(i, linked, x);
      assert NumberedOne(i, x);
    }
    if i.tree[x].pprev.Some? {
      var p := i.tree[x].pprev.value;
      assert x in i.nTx && x !in linked <==> Waits(i.tree, i.nTx, linked, [], p, x);
    }
  }

  /** The counts do not depend on the order in which blocks arrived. */
  lemma OrderDoesNotMatter(i: Index, linked: set<Id>, j: Index, linked': set<Id>)
    requires Right(i, linked) && Right(j, linked') && i.tree == j.tree && i.nTx == j.nTx
    ensures i.nChainTx == j.nChainTx
  {
    forall x | x in i.tree
      ensures x in i.nChainTx && x in j.nChainTx && i.nChainTx[x] == j.nChainTx[x]
    {
      ArrivalsDecide(i, linked, x);
      ArrivalsDecide(j, linked', x);
    }
  }

  /** One block from the queue. */
  lemma StepUnderway(i: Index, linked: set<Id>, queue: seq<Id>)
    requires Underway(i, linked, queue) && queue != []
    ensures queue[0] in i.tree && queue[0] in i.nTx && queue[0] !in linked
    ensures i.tree[queue[0]].pprev.Some? ==> i.tree[queue[0]].pprev.value in i.nChainTx
    ensures Underway(LinkedOne(i, queue[0]), linked + {queue[0]}, queue[1..] + Kids(i.unlinked, queue[0]))
  {
    LinkNext(i.tree, i.nTx, linked, queue, i.unlinked);
    assert queue[0] in queue;
    NumberNext(i, linked, queue[0]);
    hide Linking, Numbered, Rooted;
  }

  // --- the start of an arrival -------------------------------------------------------------------

  /** Nothing changed about the linked blocks. */
  predicate AgreeOn(i: Index, j: Index, linked: set<Id>) {
    forall y :: y in linked ==>
      && y in i.tree && y in j.tree && j.tree[y] == i.tree[y] && y in i.nTx && y in j.nTx && j.nTx[y] == i.nTx[y]
      && y in i.nChainTx && y in j.nChainTx && j.nChainTx[y] == i.nChainTx[y]
      && y in i.nSequenceId && y in j.nSequenceId && j.nSequenceId[y] == i.nSequenceId[y]
  }

  lemma NumberedTransfers(i: Index, j: Index, linked: set<Id>)
    requires Numbered(i, linked) && LinkedRight(i.tree, i.nTx, linked) && AgreeOn(i, j, linked)
    requires j.nBlockSequenceId == i.nBlockSequenceId && j.tree.Keys == j.nChainTx.Keys == j.nSequenceId.Keys
    requires forall x :: x in j.tree && x !in linked ==> j.nChainTx[x] == 0 && j.nSequenceId[x] == 0
    ensures Numbered(j, linked)
  {
    forall y | y in linked
      ensures NumberedOne(j, y)
    {
      assert NumberedOne(i, y) && ParentIn(i.tree, y, linked);
    }
    hide NumberedOne;
  }

  lemma LinkedTransfers(i: Index, j: Index, linked: set<Id>)
    requires LinkedRight(i.tree, i.nTx, linked) && AgreeOn(i, j, linked)
    ensures LinkedRight(j.tree, j.nTx, linked)
  {
    forall y | y in linked
      ensures y in j.tree && y in j.nTx && ParentIn(j.tree, y, linked)
    {
      assert ParentIn(i.tree, y, linked);
    }
  }

  /** The same blocks wait under the same parents. */
  ghost predicate SameWaiting(i: Index, queue: seq<Id>, j: Index, queue': seq<Id>, linked: set<Id>) {
    forall p, c :: Waits(j.tree, j.nTx, linked, queue', p, c) <==> Waits(i.tree, i.nTx, linked, queue, p, c)
  }

  lemma UnlinkedTransfers(i: Index, queue: seq<Id>, j: Index, queue': seq<Id>, linked: set<Id>)
    requires UnlinkedRight(i.tree, i.nTx, linked, queue, i.unlinked) && j.unlinked == i.unlinked
    requires SameWaiting(i, queue, j, queue', linked)
    ensures UnlinkedRight(j.tree, j.nTx, linked, queue', j.unlinked)
  {
    hide Waits;
  }

  lemma NumberedAgree(i: Index, j: Index, linked: set<Id>)
    requires Numbered(i, linked)
    requires forall y :: y in i.tree ==> y in j.tree && j.tree[y] == i.tree[y]
    requires forall y :: y in i.nTx ==> y in j.nTx && j.nTx[y] == i.nTx[y]
    requires forall y :: y in i.nChainTx ==> y in j.nChainTx && j.nChainTx[y] == i.nChainTx[y]
    requires forall y :: y in i.nSequenceId ==> y in j.nSequenceId && j.nSequenceId[y] == i.nSequenceId[y]
    ensures AgreeOn(i, j, linked)
    ensures forall y :: y in linked ==> y in i.tree && y in i.nTx
  {
    assert forall y :: y in linked ==> NumberedOne(i, y);
  }

  lemma StillUnnumbered(i: Index, linked: set<Id>)
    requires Numbered(i, linked)
    ensures i.tree.Keys == i.nChainTx.Keys == i.nSequenceId.Keys
    ensures forall x :: x in i.tree && x !in linked ==> i.nChainTx[x] == 0 && i.nSequenceId[x] == 0
  {
  }

  /** A block that can be linked at once is the whole queue. */
  lemma ArriveLinked(i: Index, linked: set<Id>, x: Id, n: nat)
    requires Right(i, linked) && x in i.tree && x !in i.nTx && n > 0 && ParentIn(i.tree, x, linked)
    ensures Underway(i.(nTx := i.nTx[x := n]), linked, [x])
  {
    hide AgreeOn, Waits, SameWaiting, Rooted, UnlinkedRight, LinkedRight, Numbered;
    var j := i.(nTx := i.nTx[x := n]);
    NumberedAgree(i, j, linked);
    StillUnnumbered(i, linked);
    QueuedWaiting(i, linked, x, n);
    NumberedTransfers(i, j, linked);
    LinkedTransfers(i, j, linked);
    UnlinkedTransfers(i, [], j, [x], linked);
  }

  lemma QueuedWaiting(i: Index, linked: set<Id>, x: Id, n: nat)
    requires x !in i.nTx
    ensures SameWaiting(i, [], i.(nTx := i.nTx[x := n]), [x], linked)
  {
  }

  /** A block without a linked parent waits under its parent. */
  lemma ArriveUnlinked(i: Index, linked: set<Id>, x: Id, n: nat)
    requires Right(i, linked) && x in i.tree && x !in i.nTx && n > 0 && !ParentIn(i.tree, x, linked)
    ensures var p := i.tree[x].pprev.value;
            Right(i.(nTx := i.nTx[x := n], unlinked := i.unlinked[p := Kids(i.unlinked, p) + [x]]), linked)
  {
    hide AgreeOn, Waits, Rooted, UnlinkedRight, LinkedRight, Numbered;
    var p0 := i.tree[x].pprev.value;
    var j := i.(nTx := i.nTx[x := n], unlinked := i.unlinked[p0 := Kids(i.unlinked, p0) + [x]]);
    NumberedAgree(i, j, linked);
    StillUnnumbered(i, linked);
    WaitUnder(i, linked, x, n);
    NumberedTransfers(i, j, linked);
    LinkedTransfers(i, j, linked);
  }

  lemma WaitUnder(i: Index, linked: set<Id>, x: Id, n: nat)
    requires UnlinkedRight(i.tree, i.nTx, linked, [], i.unlinked) && x in i.tree && x !in i.nTx && x !in linked
    requires i.tree[x].pprev.Some? && i.tree[x].pprev.value !in linked
    ensures var p := i.tree[x].pprev.value;
            UnlinkedRight(i.tree, i.nTx[x := n], linked, [], i.unlinked[p := Kids(i.unlinked, p) + [x]])
  {
    var p0, nTx := i.tree[x].pprev.value, i.nTx[x := n];
    forall p, c
      ensures Waits(i.tree, nTx, linked, [], p, c) <==> Waits(i.tree, i.nTx, linked, [], p, c) || (p == p0 && c == x)
    {
    }
    assert !Waits(i.tree, i.nTx, linked, [], p0, x);
    hide Waits;
  }

  /** A new header waits for its data; nothing else changes. */
  lemma HeaderKeeps(i: Index, linked: set<Id>, x: Id, h: Header)
    requires Right(i, linked) && x !in i.tree
    requires match h.pprev case None => true case Some(p) => p in i.tree && h.nHeight == i.tree[p].nHeight + 1
    ensures Right(i.(tree := i.tree[x := h], nChainTx := i.nChainTx[x := 0], nSequenceId := i.nSequenceId[x := 0]), linked)
  {
    hide AgreeOn, Waits, SameWaiting, Rooted, UnlinkedRight, LinkedRight, Numbered;
    var j := i.(tree := i.tree[x := h], nChainTx := i.nChainTx[x := 0], nSequenceId := i.nSequenceId[x := 0]);
    StillUnnumbered(i, linked);
    assert x !in i.nTx && x !in i.nChainTx.Keys && x !in i.nSequenceId.Keys;
    NumberedAgree(i, j, linked);
    HeaderWaiting(i, linked, x, j);
    StillRooted(i.tree, x, h);
    NumberedTransfers(i, j, linked);
    LinkedTransfers(i, j, linked);
    UnlinkedTransfers(i, [], j, [], linked);
  }

  lemma HeaderWaiting(i: Index, linked: set<Id>, x: Id, j: Index)
    requires x !in i.nTx && x !in i.tree && j.nTx == i.nTx && x in j.tree && j.tree == i.tree[x := j.tree[x]]
    ensures SameWaiting(i, [], j, [], linked)
  {
  }

  lemma StillRooted(t: Tree, x: Id, h: Header)
    requires Rooted(t) && x !in t
    requires match h.pprev case None => true case Some(p) => p in t && h.nHeight == t[p].nHeight + 1
    ensures Rooted(t[x := h])
  {
  }

  // --- the object ------------------------------------------------------------------------------------

  function KeyIn(t: Tree, seqIds: map<Id, nat>, x: Id): Key
    requires x in t && x in seqIds
  {
    Key(t[x].nChainWork, seqIds[x], x)
  }

  function KeyOf(i: Index, x: Id): Key
    requires x in i.tree && x in i.nSequenceId
  {
    KeyIn(i.tree, i.nSequenceId, x)
  }

  /** The choice between two blocks in plain words: more work, or else linked earlier, or else at the lower address. */
  predicate Preferred(t: Tree, seqIds: map<Id, nat>, x: Id, y: Id)
    requires x in t && x in seqIds && y in t && y in seqIds
  {
    || t[y].nChainWork < t[x].nChainWork
    || (t[y].nChainWork == t[x].nChainWork && seqIds[x] < seqIds[y])
    || (t[y].nChainWork == t[x].nChainWork && seqIds[x] == seqIds[y] && x <= y)
  }

  /** The candidate order makes that choice. */
  lemma PreferredIff(t: Tree, seqIds: map<Id, nat>, x: Id, y: Id)
    requires x in t && x in seqIds && y in t && y in seqIds
    ensures Preferred(t, seqIds, x, y) <==> !Less(KeyIn(t, seqIds, x), KeyIn(t, seqIds, y))
  {
  }

  /** A block is not worse than the tip. */
  predicate Eligible(i: Index, tip: Option<Id>, x: Id)
    requires x in i.tree && x in i.nSequenceId && (tip.Some? ==> tip.value in i.tree && tip.value in i.nSequenceId)
  {
    tip.None? || !Less(KeyOf(i, x), KeyOf(i, tip.value))
  }

  /** Blocks that were linked keep their sequence numbers. */
  predicate SameNumbers(before: map<Id, nat>, after: map<Id, nat>, linked: set<Id>) {
    forall x :: x in linked ==> x in before && x in after && after[x] == before[x]
  }

  // --- which blocks are candidates ----------------------------------------------------------------------

  /** No block on the path to a block failed. */
  predicate Unfailed(t: Tree, failed: set<Id>, x: Id)
    requires Rooted(t) && x in t
    decreases t[x].nHeight
  {
    x !in failed && (t[x].pprev.Some? ==> Unfailed(t, failed, t[x].pprev.value))
  }

  ghost predicate Known(i: Index, linked: set<Id>) {
    Rooted(i.tree) && forall x :: x in linked ==> x in i.tree && x in i.nSequenceId
  }

  /** All linked blocks without a failure on their path that are not worse than a given candidate are candidates;
      without a given one, all are. */
  ghost predicate Complete(i: Index, linked: set<Id>, failed: set<Id>, candidates: set<Id>, best: Option<Id>)
    requires Known(i, linked)
  {
    && candidates <= linked
    && (best.Some? ==> best.value in candidates && Unfailed(i.tree, failed, best.value))
    && forall x :: x in linked && Unfailed(i.tree, failed, x) && Eligible(i, best, x) ==> x in candidates
  }

  /** The tip is not better than the given candidate; without a candidate there is no tip. */
  ghost predicate Covers(i: Index, linked: set<Id>, best: Option<Id>, tip: Option<Id>)
    requires Known(i, linked) && (tip.Some? ==> tip.value in linked)
  {
    tip.Some? ==> best.Some? && best.value in linked && !Less(KeyOf(i, best.value), KeyOf(i, tip.value))
  }

  /** Wherever the tip moves, some candidate covers it. */
  lemma TipCovered(i: Index, linked: set<Id>, failed: set<Id>, candidates: set<Id>, best: Option<Id>, tip: Id) returns (best': Option<Id>)
    requires Known(i, linked) && Complete(i, linked, failed, candidates, best) && tip in linked && Unfailed(i.tree, failed, tip)
    ensures Complete(i, linked, failed, candidates, best') && Covers(i, linked, best', Some(tip)) && (best' == best || best' == Some(tip))
  {
    hide Less, Unfailed, Rooted;
    best' := best;
    LessIsTotalOrder(KeyOf(i, tip), KeyOf(i, tip), KeyOf(i, tip));
    if best.None? || Less(KeyOf(i, best.value), KeyOf(i, tip)) {
      best' := Some(tip);
      if best.Some? {
        LessIsTotalOrder(KeyOf(i, best.value), KeyOf(i, tip), KeyOf(i, best.value));
      }
      assert Eligible(i, best, tip);
      forall x | x in linked && Unfailed(i.tree, failed, x) && Eligible(i, Some(tip), x)
        ensures x in candidates
      {
        if best.Some? {
          LessIsTotalOrder(KeyOf(i, x), KeyOf(i, best.value), KeyOf(i, tip));
        }
        assert Eligible(i, best, x);
      }
    }
  }

  /** Dropping the candidates worse than the tip keeps the candidate that covers it, and all that have to be there. */
  lemma PruneCompletes(i: Index, linked: set<Id>, failed: set<Id>, candidates: set<Id>, best: Option<Id>, tip: Id, kept: set<Id>)
    requires Known(i, linked) && Complete(i, linked, failed, candidates, best) && tip in linked && Covers(i, linked, best, Some(tip))
    requires kept <= candidates && forall x :: x in candidates && !Less(KeyOf(i, x), KeyOf(i, tip)) ==> x in kept
    ensures Complete(i, linked, failed, kept, best) && best.value in kept
  {
    hide Less, Unfailed, Rooted;
    forall x | x in linked && Unfailed(i.tree, failed, x) && Eligible(i, best, x)
      ensures x in kept
    {
      NotWorse(KeyOf(i, x), KeyOf(i, best.value), KeyOf(i, tip));
    }
  }

  lemma NotWorse(a: Key, b: Key, c: Key)
    requires !Less(a, b) && !Less(b, c)
    ensures !Less(a, c)
  {
  }

  /** A tree with more headers in it. */
  predicate Grows(t: Tree, t': Tree) { forall x :: x in t ==> x in t' && t'[x] == t[x] }

  lemma {:induction false} UnfailedSame(t: Tree, t': Tree, failed: set<Id>, x: Id)
    requires Rooted(t) && Rooted(t') && Grows(t, t') && x in t
    ensures Unfailed(t', failed, x) <==> Unfailed(t, failed, x)
    decreases t[x].nHeight
  {
    if t[x].pprev.Some? {
      UnfailedSame(t, t', failed, t[x].pprev.value);
    }
  }

  /** Headers and arrivals complete the candidates with what they link. */
  lemma ArrivalCompletes(i: Index, linked: set<Id>, j: Index, linked': set<Id>, failed: set<Id>, before: set<Id>, after: set<Id>,
                         best: Option<Id>, tip: Option<Id>)
    requires Known(i, linked) && Known(j, linked') && linked <= linked' && Grows(i.tree, j.tree)
    requires forall x :: x in linked ==> i.nSequenceId[x] == j.nSequenceId[x]
    requires (tip.Some? ==> tip.value in linked) && Complete(i, linked, failed, before, best) && Covers(i, linked, best, tip)
    requires forall x :: x in after <==> x in before || (x in linked' && x !in linked && Eligible(j, tip, x))
    ensures Complete(j, linked', failed, after, best) && Covers(j, linked', best, tip)
  {
    hide Less, Unfailed, Rooted;
    if best.Some? {
      UnfailedSame(i.tree, j.tree, failed, best.value);
    }
    forall x | x in linked' && Unfailed(j.tree, failed, x) && Eligible(j, best, x)
      ensures x in after
    {
      if x in linked {
        UnfailedSame(i.tree, j.tree, failed, x);
        assert Eligible(i, best, x);
      } else if tip.Some? {
        NotWorse(KeyOf(j, x), KeyOf(j, best.value), KeyOf(j, tip.value));
      }
    }
  }

  /** Whatever failed, and whichever candidate covers the tip: complete candidates stay complete. */
  ghost predicate StayComplete(i: Index, linked: set<Id>, before: set<Id>, j: Index, linked': set<Id>, after: set<Id>, tip: Option<Id>) {
    && Known(i, linked) && Known(j, linked') && linked <= linked' && (tip.Some? ==> tip.value in linked)
    && forall failed: set<Id>, best: Option<Id> ::
         Complete(i, linked, failed, before, best) && Covers(i, linked, best, tip) ==>
           Complete(j, linked', failed, after, best) && Covers(j, linked', best, tip)
  }

  lemma ArrivalStays(i: Index, linked: set<Id>, j: Index, linked': set<Id>, before: set<Id>, after: set<Id>, tip: Option<Id>)
    requires Known(i, linked) && Known(j, linked') && linked <= linked' && Grows(i.tree, j.tree)
    requires (forall x :: x in linked ==> i.nSequenceId[x] == j.nSequenceId[x]) && (tip.Some? ==> tip.value in linked)
    requires forall x :: x in after <==> x in before || (x in linked' && x !in linked && Eligible(j, tip, x))
    ensures StayComplete(i, linked, before, j, linked', after, tip)
  {
    hide Less, Complete, Covers, Rooted;
    forall failed: set<Id>, best: Option<Id> | Complete(i, linked, failed, before, best) && Covers(i, linked, best, tip)
      ensures Complete(j, linked', failed, after, best) && Covers(j, linked', best, tip)
    {
      ArrivalCompletes(i, linked, j, linked', failed, before, after, best, tip);
    }
  }

  /** With a block its parent is in the set. */
  predicate ParentsToo(t: Tree, s: set<Id>) { forall x :: x in s ==> x in t && ParentIn(t, x, s) }

  lemma {:induction false} ApartUnfailed(t: Tree, failed: set<Id>, good: set<Id>, x: Id)
    requires Rooted(t) && ParentsToo(t, good) && good !! failed && x in good
    ensures Unfailed(t, failed, x)
    decreases t[x].nHeight
  {
    assert ParentIn(t, x, good);
    if t[x].pprev.Some? {
      ApartUnfailed(t, failed, good, t[x].pprev.value);
    }
  }

  /** A block that is refused is marked and leaves the candidates, and they stay complete: the candidate that covers the
      tip is good, as all candidates are that ever were the tip, and no good block builds on a refused one. */
  lemma FailureCompletes(i: Index, linked: set<Id>, failed: set<Id>, candidates: set<Id>, best: Option<Id>, good: set<Id>, x: Id)
    requires Known(i, linked) && Complete(i, linked, failed, candidates, best)
    requires ParentsToo(i.tree, good) && good !! failed && x !in good && (best.Some? ==> best.value in good)
    ensures Complete(i, linked, failed + {x}, candidates - {x}, best) && good !! failed + {x}
  {
    if best.Some? {
      ApartUnfailed(i.tree, failed + {x}, good, best.value);
    }
    forall y | y in linked && Unfailed(i.tree, failed + {x}, y)
      ensures Unfailed(i.tree, failed, y)
    {
      FewerFailed(i.tree, failed, failed + {x}, y);
    }
  }

  lemma {:induction false} FewerFailed(t: Tree, failed: set<Id>, more: set<Id>, x: Id)
    requires Rooted(t) && x in t && failed <= more && Unfailed(t, more, x)
    ensures Unfailed(t, failed, x)
    decreases t[x].nHeight
  {
    if t[x].pprev.Some? {
      FewerFailed(t, failed, more, t[x].pprev.value);
    }
  }

  lemma KnownMeans(i: Index, linked: set<Id>)
    requires Known(i, linked)
    ensures forall x :: x in linked ==> x in i.tree && x in i.nSequenceId
  {
  }

  lemma RightKnown(i: Index, linked: set<Id>)
    requires Right(i, linked)
    ensures Known(i, linked) && LinkedRight(i.tree, i.nTx, linked)
    ensures forall x :: x in linked ==> x in i.nChainTx && i.nChainTx[x] != 0
  {
    assert forall x :: x in linked ==> NumberedOne(i, x);
  }

  /** Detached blocks have a failed parent, and are not among the blocks that are linked or wait. */
  predicate Detached(t: Tree, nTx: map<Id, nat>, failed: set<Id>, detached: map<Id, nat>) {
    forall x :: x in detached ==> x in t && x !in nTx && t[x].pprev.Some? && t[x].pprev.value in failed
  }

  lemma DetachedGrows(t: Tree, t': Tree, nTx: map<Id, nat>, failed: set<Id>, detached: map<Id, nat>)
    requires Detached(t, nTx, failed, detached) && Grows(t, t')
    ensures Detached(t', nTx, failed, detached)
  {
  }

  /** One more block has arrived, with a failed parent or tracked. */
  lemma DetachedArrives(t: Tree, nTx: map<Id, nat>, failed: set<Id>, detached: map<Id, nat>, x: Id, n: nat)
    requires Detached(t, nTx, failed, detached) && x in t && x !in nTx + detached
    ensures Detached(t, nTx[x := n], failed, detached) && nTx[x := n] + detached == (nTx + detached)[x := n]
    ensures t[x].pprev.Some? && t[x].pprev.value in failed ==> Detached(t, nTx, failed, detached[x := n])
    ensures nTx + detached[x := n] == (nTx + detached)[x := n]
  {
  }

  /** On a path whose inner blocks did not fail no block is detached. */
  lemma {:induction false} NoneDetached(i: Index, failed: set<Id>, detached: map<Id, nat>, x: Id)
    requires Detached(i.tree, i.nTx, failed, detached) && Rooted(i.tree) && x in i.tree
    requires i.tree[x].pprev.Some? ==> Unfailed(i.tree, failed, i.tree[x].pprev.value)
    ensures AllArrived(i.tree, i.nTx + detached, x) <==> AllArrived(i.tree, i.nTx, x)
    decreases i.tree[x].nHeight
  {
    if i.tree[x].pprev.Some? {
      var p := i.tree[x].pprev.value;
      assert Unfailed(i.tree, failed, p);
      NoneDetached(i, failed, detached, p);
    }
  }

  /** The block index with its bookkeeping of arrived data. */
  class BlockIndexMap {
    var index: Index
    var setBlockIndexCandidates: set<Id>
    var tip: Option<Id>
    var failed: set<Id>           // the blocks marked as failed
    var detached: map<Id, nat>    // transaction counts of blocks that arrived below a failed parent and wait for nothing
    ghost var linked: set<Id>

    ghost predicate Valid()
      reads this
    {
      && Right(index, linked) && (tip.Some? ==> tip.value in linked) && setBlockIndexCandidates <= linked
      && Detached(index.tree, index.nTx, failed, detached)
    }

    /** The transaction counts of all blocks that have arrived. */
    function Counts(): (nTx: map<Id, nat>)
      reads this`index, this`detached
    {
      index.nTx + detached
    }

    constructor ()
      ensures Valid() && index == Index(map[], map[], map[], map[], 1, map[]) && setBlockIndexCandidates == {} && tip == None
      ensures failed == {} && detached == map[]
    {
      index := Index(map[], map[], map[], map[], 1, map[]);
      setBlockIndexCandidates, tip, linked, failed, detached := {}, None, {}, {}, map[];
    }

    /** A block is found to be invalid. */
    method MarkFailed(x: Id)
      requires Valid()
      modifies this`failed
      ensures Valid() && failed == old(failed) + {x}
    {
      failed := failed + {x};
    }

    /** A block without a failed ancestor is linked exactly if it and all its ancestors have arrived. */
    lemma LinkedExactly(x: Id)
      requires Valid() && x in index.tree && Rooted(index.tree)
      requires index.tree[x].pprev.Some? ==> Unfailed(index.tree, failed, index.tree[x].pprev.value)
      ensures x in linked <==> AllArrived(index.tree, Counts(), x)
    {
      LinkedIffArrived(index.tree, index.nTx, linked, index.unlinked, x);
      NoneDetached(index, failed, detached, x);
    }

    /** Enter a header; its data is still to come. */
    method AddToBlockIndex(x: Id, hashPrev: Id, nProof: nat)
      requires Valid()
      modifies this`index
      ensures Valid()
      ensures x in old(index.tree) ==> index == old(index)
      ensures x !in old(index.tree) ==>
                && x in index.tree && index.nTx == old(index.nTx) && index.tree == old(index.tree)[x := index.tree[x]]
                && index.tree[x].pprev == (if hashPrev in old(index.tree) then Some(hashPrev) else None)
                && (hashPrev in old(index.tree) ==> index.tree[x].nHeight == old(index.tree)[hashPrev].nHeight + 1
                                                    && index.tree[x].nChainWork == old(index.tree)[hashPrev].nChainWork + nProof)
                && (hashPrev !in old(index.tree) ==> index.tree[x].nHeight == 0 && index.tree[x].nChainWork == 1 + nProof)
      ensures StayComplete(old(index), linked, setBlockIndexCandidates, index, linked, setBlockIndexCandidates, tip)
    {
      hide Linking, Numbered, Rooted, StayComplete, Known, Detached;
      RightKnown(index, linked);
      KnownMeans(index, linked);
      if x in index.tree {
        ArrivalStays(index, linked, index, linked, setBlockIndexCandidates, setBlockIndexCandidates, tip);
        return;
      }
      var h := if hashPrev in index.tree
               then Header(Some(hashPrev), index.tree[hashPrev].nHeight + 1, index.tree[hashPrev].nChainWork + nProof)
               else Header(None, 0, 1 + nProof);
      HeaderKeeps(index, linked, x, h);
      DetachedGrows(index.tree, index.tree[x := h], index.nTx, failed, detached);
      index := index.(tree := index.tree[x := h], nChainTx := index.nChainTx[x := 0], nSequenceId := index.nSequenceId[x := 0]);
      RightKnown(index, linked);
      ArrivalStays(old(index), linked, index, linked, setBlockIndexCandidates, setBlockIndexCandidates, tip);
    }

    /** The candidates are those of before and the newly linked blocks that are not worse than the tip. */
    ghost predicate CandidatesRight(before: set<Id>, linkedBefore: set<Id>)
      reads this
    {
      && (tip.Some? ==> tip.value in index.tree && tip.value in index.nSequenceId)
      && (forall y :: y in linked ==> y in index.tree && y in index.nSequenceId)
      && (forall y :: y in setBlockIndexCandidates <==>
            y in before || (y in linked && y !in linkedBefore && Eligible(index, tip, y)))
    }

    /** Link one block of the queue. */
    method LinkOne(queue: seq<Id>, ghost before: set<Id>, ghost linkedBefore: set<Id>) returns (rest: seq<Id>)
      requires Underway(index, linked, queue) && queue != [] && (tip.Some? ==> tip.value in linked)
      requires CandidatesRight(before, linkedBefore) && linkedBefore <= linked
      modifies this`index, this`linked, this`setBlockIndexCandidates
      ensures Underway(index, linked, rest) && linked == old(linked) + {queue[0]} && queue[0] !in old(linked)
      ensures SameNumbers(old(index.nSequenceId), index.nSequenceId, old(linked))
      ensures index.tree == old(index.tree) && index.nTx == old(index.nTx)
      ensures CandidatesRight(before, linkedBefore)
    {
      hide Underway;
      StepUnderway(index, linked, queue);
      var x := queue[0];
      rest := queue[1..] + Kids(index.unlinked, x);
      index := LinkedOne(index, x);
      linked := linked + {x};
      if tip.None? || !Less(KeyOf(index, x), KeyOf(index, tip.value)) {
        setBlockIndexCandidates := setBlockIndexCandidates + {x};
      }
    }

    /** Link everything that can be linked now. */
    method LinkQueue(start: seq<Id>)
      requires Underway(index, linked, start) && (tip.Some? ==> tip.value in linked) && setBlockIndexCandidates <= linked
      requires Detached(index.tree, index.nTx, failed, detached)
      modifies this`index, this`linked, this`setBlockIndexCandidates
      ensures Valid() && old(linked) <= linked && index.tree == old(index.tree) && index.nTx == old(index.nTx)
      ensures CandidatesRight(old(setBlockIndexCandidates), old(linked)) && SameNumbers(old(index.nSequenceId), index.nSequenceId, old(linked))
    {
      hide Underway, Detached;
      LinkedKnown(index, linked, start);
      var queue := start;
      while queue != []
        invariant Underway(index, linked, queue) && (tip.Some? ==> tip.value in linked) && old(linked) <= linked
        invariant index.tree == old(index.tree) && index.nTx == old(index.nTx)
        invariant CandidatesRight(old(setBlockIndexCandidates), old(linked)) && SameNumbers(old(index.nSequenceId), index.nSequenceId, old(linked))
        decreases index.nTx.Keys - linked
      {
        InQueue(index, linked, queue);
        queue := LinkOne(queue, old(setBlockIndexCandidates), old(linked));
      }
    }

    /** A block's data has arrived. It is linked with all that waited for it, waits for its parent, or, below a failed
        parent, does neither. */
    method ReceivedBlockTransactions(x: Id, nTx: nat)
      requires Valid() && x in index.tree && x !in Counts() && nTx > 0
      modifies this`index, this`linked, this`setBlockIndexCandidates, this`detached
      ensures Valid() && index.tree == old(index.tree) && Counts() == old(Counts())[x := nTx]
      ensures x in index.nTx || (x !in linked && index == old(index))
      ensures var p := index.tree[x].pprev; x in index.nTx <==> p.None? || p.value in old(linked) || p.value !in failed
      ensures var p := index.tree[x].pprev; x in linked <==> p.None? || p.value in old(linked)
      ensures old(linked) <= linked && CandidatesRight(old(setBlockIndexCandidates), old(linked))
      ensures SameNumbers(old(index.nSequenceId), index.nSequenceId, old(linked))
      ensures StayComplete(old(index), old(linked), old(setBlockIndexCandidates), index, linked, setBlockIndexCandidates, tip)
    {
      hide Underway, StayComplete, Known, Detached, SameNumbers, BlockIndexMap.CandidatesRight;
      RightKnown(index, linked);
      LinkedKnown(index, linked, []);
      ParentCounts(index, linked, x);
      DetachedArrives(index.tree, index.nTx, failed, detached, x, nTx);
      if index.tree[x].pprev.None? || index.nChainTx[index.tree[x].pprev.value] != 0 {
        ArriveLinked(index, linked, x, nTx);
        index := index.(nTx := index.nTx[x := nTx]);
        LinkQueue([x]);
        LinkedBelow(index, linked, x);
      } else if index.tree[x].pprev.value in failed {
        detached := detached[x := nTx];
        NothingLinked();
      } else {
        ArriveUnlinked(index, linked, x, nTx);
        var p := index.tree[x].pprev.value;
        index := index.(nTx := index.nTx[x := nTx], unlinked := index.unlinked[p := Kids(index.unlinked, p) + [x]]);
        NothingLinked();
      }
      ArrivedStays(old(index), old(linked), old(setBlockIndexCandidates));
    }

    /** If nothing was linked, the candidates are right as they are. */
    lemma NothingLinked()
      requires Valid()
      ensures CandidatesRight(setBlockIndexCandidates, linked) && SameNumbers(index.nSequenceId, index.nSequenceId, linked)
    {
      LinkedKnown(index, linked, []);
    }

    lemma ArrivedStays(i: Index, linkedBefore: set<Id>, before: set<Id>)
      requires Valid() && Known(i, linkedBefore) && index.tree == i.tree && linkedBefore <= linked
      requires SameNumbers(i.nSequenceId, index.nSequenceId, linkedBefore) && CandidatesRight(before, linkedBefore) && (tip.Some? ==> tip.value in linkedBefore)
      ensures StayComplete(i, linkedBefore, before, index, linked, setBlockIndexCandidates, tip)
    {
      hide Less, StayComplete, Underway;
      RightKnown(index, linked);
      ArrivalStays(i, linkedBefore, index, linked, before, setBlockIndexCandidates, tip);
    }
  }

  /** The block at the front of the queue is there, has arrived and is not linked yet. */
  lemma InQueue(i: Index, linked: set<Id>, queue: seq<Id>)
    requires Underway(i, linked, queue) && queue != []
    ensures queue[0] in i.nTx && queue[0] !in linked
  {
    assert queue[0] in queue;
  }

  lemma LinkedKnown(i: Index, linked: set<Id>, queue: seq<Id>)
    requires Underway(i, linked, queue)
    ensures forall y :: y in linked ==> y in i.tree && y in i.nSequenceId && y in i.nTx
  {
    assert forall y :: y in linked ==> NumberedOne(i, y);
  }

  /** A parent has a count exactly if it is linked. */
  /** With nothing queued, a block that arrived below a linked parent is linked. */
  lemma LinkedBelow(i: Index, linked: set<Id>, x: Id)
    requires Right(i, linked) && x in i.tree && x in i.nTx && ParentIn(i.tree, x, linked)
    ensures x in linked
  {
    hide Numbered, Rooted, LinkedRight;
    if i.tree[x].pprev.Some? {
      assert x in linked || Waits(i.tree, i.nTx, linked, [], i.tree[x].pprev.value, x);
    }
  }

  lemma ParentCounts(i: Index, linked: set<Id>, x: Id)
    requires Right(i, linked) && x in i.tree
    ensures i.tree[x].pprev.Some? ==> i.tree[x].pprev.value in i.nChainTx
    ensures ParentIn(i.tree, x, linked) <==> i.tree[x].pprev.None? || i.nChainTx[i.tree[x].pprev.value] != 0
  {
    if i.tree[x].pprev.Some? {
      var p := i.tree[x].pprev.value;
      assert p in i.tree.Keys;
      assert p in linked ==> NumberedOne(i, p);
    }
  }
}
