/**
 Filling a block from the memory pool: a priority phase, then a pass by score with postponed
 children, under a byte and a signature-operation budget.

 In which order the two priority queues hand out their entries is left open, and so is the order
 of the pass by score. Priorities and fee rates come from parameters.
 */
module BlockAssembly {
  import opened Basics
  import Coins

  type Id = nat

  /** What the memory pool knows about a transaction; its parents are those in the pool. */
  datatype Entry = Entry(nTxSize: nat, nSigOps: nat, nFee: int, nModifiedFee: int, priority: real, isFinal: bool, parents: set<Id>)

  type Pool = map<Id, Entry>

  /** Parents are in the pool. */
  predicate Closed(pool: Pool) { forall x, p :: x in pool && p in pool[x].parents ==> p in pool }

  /** No transaction depends on itself, not even indirectly: ranks fall from child to parent. */
  ghost predicate Acyclic(pool: Pool, rank: Id -> nat) { forall x, p :: x in pool && p in pool[x].parents ==> rank(p) < rank(x) }

  datatype Config = Config(nBlockMaxSize: nat, nBlockPrioritySize: nat, nBlockMinSize: nat, nMaxSigOps: nat,
                           minRelayFee: nat -> int, allowFree: real -> bool)

  const U32 := 0x1_0000_0000

  /** The byte budget: at most 7000 below the limit, at least 1000. Argument and subtraction wrap around. */
  function BlockMaxSize(arg: int, nMaxBlockSize: nat): (r: nat)
    ensures r >= 1000 && (7000 <= nMaxBlockSize < U32 ==> r <= (if nMaxBlockSize < 8000 then 1000 else nMaxBlockSize - 7000))
    ensures 1000 <= arg % U32 <= (nMaxBlockSize - 7000) % U32 ==> r == arg % U32
    ensures 1000 <= (nMaxBlockSize - 7000) % U32 <= arg % U32 ==> r == (nMaxBlockSize - 7000) % U32
    ensures arg % U32 < 1000 || (nMaxBlockSize - 7000) % U32 < 1000 ==> r == 1000
  {
    var wanted, limit := arg % U32, (nMaxBlockSize - 7000) % U32;
    var capped := if wanted < limit then wanted else limit;
    if capped < 1000 then 1000 else capped
  }

  /** The block limits that the check of the chain parameters admits. */
  predicate Admitted(nMaxBlockSize: nat) { 100000 <= nMaxBlockSize <= 5000000 }

  /** The budget respects the limit, whatever the argument, exactly if the limit is at least 7000; so it respects every
      limit that can occur. */
  lemma BudgetWithinLimit(nMaxBlockSize: nat)
    requires nMaxBlockSize < U32
    ensures (forall arg: int :: BlockMaxSize(arg, nMaxBlockSize) <= nMaxBlockSize) <==> nMaxBlockSize >= 7000
    ensures Admitted(nMaxBlockSize) ==> forall arg: int :: BlockMaxSize(arg, nMaxBlockSize) <= nMaxBlockSize - 7000
  {
    if nMaxBlockSize < 7000 {
      assert BlockMaxSize(nMaxBlockSize + 1000, nMaxBlockSize) > nMaxBlockSize;
    }
  }

  /** What the operator asks for, and the policies of the node. */
  datatype Settings = Settings(blockMaxSize: int, blockPrioritySize: int, blockMinSize: int,
                               minRelayFee: nat -> int, allowFree: real -> bool)

  /** The budgets that follow from the settings under a limit on blocks. There is one signature operation to fifty bytes
      of the limit. */
  function Budgets(settings: Settings, nMaxBlockSize: nat): (cfg: Config)
    ensures cfg.nBlockMaxSize >= 1000 && cfg.nBlockPrioritySize <= cfg.nBlockMaxSize && cfg.nBlockMinSize <= cfg.nBlockMaxSize
    ensures 50 * cfg.nMaxSigOps <= nMaxBlockSize < 50 * (cfg.nMaxSigOps + 1)
    ensures 0 <= settings.blockPrioritySize < U32 && cfg.nBlockPrioritySize != settings.blockPrioritySize ==>
              cfg.nBlockPrioritySize == cfg.nBlockMaxSize < settings.blockPrioritySize
    ensures 0 <= settings.blockMinSize < U32 && cfg.nBlockMinSize != settings.blockMinSize ==>
              cfg.nBlockMinSize == cfg.nBlockMaxSize < settings.blockMinSize
    ensures cfg.minRelayFee == settings.minRelayFee && cfg.allowFree == settings.allowFree
  {
    var max := BlockMaxSize(settings.blockMaxSize, nMaxBlockSize);
    var priority, min := settings.blockPrioritySize % U32, settings.blockMinSize % U32;
    Config(max, if priority < max then priority else max, if min < max then min else max, nMaxBlockSize / 50,
           settings.minRelayFee, settings.allowFree)
  }

  // --- what is in the block ---------------------------------------------------------------------

  function Total(f: Id -> int, v: seq<Id>): int { if v == [] then 0 else Total(f, v[..|v| - 1]) + f(v[|v| - 1]) }

  function Sizes(pool: Pool): Id -> int { x => if x in pool then pool[x].nTxSize else 0 }
  function SigOps(pool: Pool): Id -> int { x => if x in pool then pool[x].nSigOps else 0 }
  function Fees(pool: Pool): Id -> int { x => if x in pool then pool[x].nFee else 0 }

  function SizeOf(pool: Pool, vtx: seq<Id>): int { Total(Sizes(pool), vtx) }
  function SigOpsOf(pool: Pool, vtx: seq<Id>): int { Total(SigOps(pool), vtx) }
  function FeesOf(pool: Pool, vtx: seq<Id>): int { Total(Fees(pool), vtx) }

  lemma {:induction false} TotalConcat(f: Id -> int, a: seq<Id>, b: seq<Id>)
    ensures Total(f, a + b) == Total(f, a) + Total(f, b)
    decreases |b|
  {
    if b == [] {
      assert a + b == a;
    } else {
      var last := |b| - 1;
      assert (a + b)[..|a + b| - 1] == a + b[..last];
      TotalConcat(f, a, b[..last]);
    }
  }

  /** Leaving one entry out of a list. */
  lemma TotalWithout(f: Id -> int, v: seq<Id>, k: nat)
    requires k < |v|
    ensures Total(f, v) == Total(f, Without(v, k)) + f(v[k])
  {
    hide Total;
    var front, back := v[..k], v[k + 1..];
    assert v == (front + [v[k]]) + back;
    TotalConcat(f, front, back);
    TotalConcat(f, front + [v[k]], back);
    TotalAppend(f, front, v[k]);
  }

  lemma TotalAppend(f: Id -> int, v: seq<Id>, x: Id)
    ensures Total(f, v + [x]) == Total(f, v) + f(x)
  {
    assert (v + [x])[..|v|] == v;
  }

  /** A list without repeats that takes its entries from another weighs no more than the other. */
  lemma {:induction false} TotalSublist(f: Id -> int, a: seq<Id>, b: seq<Id>)
    requires (forall x :: f(x) >= 0) && Distinct(a) && forall i :: 0 <= i < |a| ==> a[i] in b
    ensures Total(f, a) <= Total(f, b)
    decreases |a|
  {
    if a == [] {
      TotalNonNegative(f, b);
    } else {
      var last := |a| - 1;
      var k :| 0 <= k < |b| && b[k] == a[last];
      var rest := Without(b, k);
      forall i | 0 <= i < last
        ensures a[..last][i] in rest
      {
        var j :| 0 <= j < |b| && b[j] == a[i];
        WithoutKeeps(b, k, j);
      }
      TotalSublist(f, a[..last], rest);
      TotalWithout(f, b, k);
    }
  }

  lemma {:induction false} TotalNonNegative(f: Id -> int, v: seq<Id>)
    requires forall x :: f(x) >= 0
    ensures Total(f, v) >= 0
    decreases |v|
  {
    if v != [] {
      TotalNonNegative(f, v[..|v| - 1]);
    }
  }

  predicate InPool(pool: Pool, vtx: seq<Id>) { forall i :: 0 <= i < |vtx| ==> vtx[i] in pool }

  /** Every transaction follows all its parents, and is final. */
  predicate ParentsFirst(pool: Pool, vtx: seq<Id>)
    requires InPool(pool, vtx)
  {
    forall i :: 0 <= i < |vtx| ==> pool[vtx[i]].isFinal && forall p :: p in pool[vtx[i]].parents ==> p in vtx[..i]
  }

  /** A list of transactions that may follow the coinbase, within the budgets. */
  ghost predicate GoodBlock(pool: Pool, cfg: Config, vtx: seq<Id>) {
    && InPool(pool, vtx) && Distinct(vtx) && ParentsFirst(pool, vtx)
    && (vtx != [] ==> 1000 + SizeOf(pool, vtx) < cfg.nBlockMaxSize && 100 + SigOpsOf(pool, vtx) < cfg.nMaxSigOps)
  }

  /** A transaction pays at least the relay fee for its size. */
  predicate Pays(pool: Pool, cfg: Config, x: Id)
    requires x in pool
  {
    pool[x].nModifiedFee >= cfg.minRelayFee(pool[x].nTxSize)
  }

  /** Appending a transaction whose parents are there. */
  lemma GoodAppend(pool: Pool, cfg: Config, vtx: seq<Id>, x: Id)
    requires GoodBlock(pool, cfg, vtx) && x in pool && x !in vtx && pool[x].isFinal && forall p :: p in pool[x].parents ==> p in vtx
    requires 1000 + SizeOf(pool, vtx) + pool[x].nTxSize < cfg.nBlockMaxSize
    requires 100 + SigOpsOf(pool, vtx) + pool[x].nSigOps < cfg.nMaxSigOps
    ensures GoodBlock(pool, cfg, vtx + [x])
    ensures SizeOf(pool, vtx + [x]) == SizeOf(pool, vtx) + pool[x].nTxSize
    ensures SigOpsOf(pool, vtx + [x]) == SigOpsOf(pool, vtx) + pool[x].nSigOps
    ensures FeesOf(pool, vtx + [x]) == FeesOf(pool, vtx) + pool[x].nFee
  {
    var more := vtx + [x];
    assert more[..|more| - 1] == vtx;
    forall i | 0 <= i < |more|
      ensures pool[more[i]].isFinal && forall p :: p in pool[more[i]].parents ==> p in more[..i]
    {
      if i < |vtx| {
        assert more[i] == vtx[i] && more[..i] == vtx[..i];
      } else {
        assert more[i] == x && more[..i] == vtx;
      }
    }
  }

  // --- the work in progress ------------------------------------------------------------------------

  datatype Work = Work(vtx: seq<Id>, inBlock: set<Id>, waitSet: set<Id>, waitPriMap: map<Id, real>, vecPriority: seq<(real, Id)>,
                       clearedTxs: seq<Id>, mi: nat, nBlockSize: nat, nBlockSigOps: nat, nFees: int, lastFewTxs: nat,
                       fPriorityBlock: bool, actualPriority: real)

  predicate InQueue(v: seq<(real, Id)>, x: Id) { exists k :: 0 <= k < |v| && v[k].1 == x }

  /** The lists and totals are right. */
  ghost predicate Sane(pool: Pool, cfg: Config, byScore: seq<Id>, w: Work) {
    && GoodBlock(pool, cfg, w.vtx) && (forall x :: x in w.inBlock <==> x in w.vtx)
    && w.nBlockSize == 1000 + SizeOf(pool, w.vtx) && w.nBlockSigOps == 100 + SigOpsOf(pool, w.vtx) && w.nFees == FeesOf(pool, w.vtx)
    && w.mi <= |byScore| && InPool(pool, byScore) && InPool(pool, w.clearedTxs)
    && w.waitSet <= pool.Keys && Prioritized(pool, w.vecPriority, w.waitPriMap)
  }

  /** Queued and waiting transactions carry their priorities. */
  predicate Prioritized(pool: Pool, vecPriority: seq<(real, Id)>, waitPriMap: map<Id, real>) {
    && (forall k :: 0 <= k < |vecPriority| ==> vecPriority[k].1 in pool && vecPriority[k].0 == pool[vecPriority[k].1].priority)
    && (forall c :: c in waitPriMap ==> c in pool && waitPriMap[c] == pool[c].priority)
  }

  /** Pending entries of the three queues. */
  function Pending(byScore: seq<Id>, w: Work): int { |w.vecPriority| + (|byScore| - w.mi) + |w.clearedTxs| }

  /** A parent that is not in the block yet. */
  predicate Orphan(pool: Pool, inBlock: set<Id>, x: Id)
    requires x in pool
  {
    exists p :: p in pool[x].parents && p !in inBlock
  }

  /** A transaction cannot go in any more: it is not final, or its bytes or its signature operations do not fit. */
  predicate Excluded(pool: Pool, cfg: Config, w: Work, x: Id)
    requires x in pool
  {
    !pool[x].isFinal || w.nBlockSize + pool[x].nTxSize >= cfg.nBlockMaxSize || w.nBlockSigOps + pool[x].nSigOps >= cfg.nMaxSigOps
  }

  /** A transaction is still to be looked at in the pass by score, or waits there for a parent. */
  ghost predicate InScorePass(pool: Pool, byScore: seq<Id>, w: Work, x: Id)
    requires x in pool && w.mi <= |byScore|
  {
    x in byScore[w.mi..] || x in w.clearedTxs || (x in w.waitSet && Orphan(pool, w.inBlock, x))
  }

  /** The same in the priority phase. */
  ghost predicate InPriorityPass(pool: Pool, w: Work, x: Id)
    requires x in pool
  {
    InQueue(w.vecPriority, x) || (x in w.waitPriMap && Orphan(pool, w.inBlock, x))
  }

  /** No transaction is lost: those outside the block are excluded for good or are in a pass, but for one just taken out
      of it. If the priority queue runs dry before its phase ends, all are excluded or wait for a parent. */
  ghost predicate Accounted(pool: Pool, cfg: Config, byScore: seq<Id>, w: Work, scored: set<Id>, prioritized: set<Id>) {
    && w.mi <= |byScore|
    && (forall x :: x in pool && x !in w.inBlock && x !in scored ==> Excluded(pool, cfg, w, x) || InScorePass(pool, byScore, w, x))
    && (w.fPriorityBlock ==>
          && w.clearedTxs == []
          && forall x :: x in pool && x !in w.inBlock && x !in prioritized ==> Excluded(pool, cfg, w, x) || InPriorityPass(pool, w, x))
    && (w.fPriorityBlock && w.mi > 0 ==> w.vecPriority == [] && Maximal(pool, cfg, w))
  }

  /** Whatever is not in the block is excluded or misses a parent. */
  ghost predicate Maximal(pool: Pool, cfg: Config, w: Work) {
    forall x :: x in pool && x !in w.inBlock ==> Excluded(pool, cfg, w, x) || Orphan(pool, w.inBlock, x)
  }

  lemma WithoutKeeps<T>(v: seq<T>, k: nat, i: nat)
    requires k < |v| && i < |v| && i != k
    ensures v[i] in Without(v, k)
  {
    if i < k {
      assert Without(v, k)[i] == v[i];
    } else {
      assert Without(v, k)[i - 1] == v[i];
    }
  }

  /** One transaction is taken out of the queues; no other is lost. */
  ghost predicate PickKeeps(pool: Pool, cfg: Config, byScore: seq<Id>, w: Work, r: Work, x: Id, priorityTx: bool) {
    && Sane(pool, cfg, byScore, w) && Sane(pool, cfg, byScore, r) && x in pool && Pending(byScore, r) == Pending(byScore, w) - 1
    && (Accounted(pool, cfg, byScore, w, {}, {}) ==>
          && Accounted(pool, cfg, byScore, r, if priorityTx then {} else {x}, if priorityTx then {x} else {})
          && (r.fPriorityBlock && !priorityTx ==> r.mi > 0))
  }

  /** The place of an entry with the highest priority. */
  method Highest(v: seq<(real, Id)>) returns (k: nat)
    requires v != []
    ensures k < |v| && forall j :: 0 <= j < |v| ==> v[j].0 <= v[k].0
  {
    k := 0;
    for i := 1 to |v|
      invariant k < i && forall j :: 0 <= j < i ==> v[j].0 <= v[k].0
    {
      if v[k].0 < v[i].0 {
        k := i;
      }
    }
  }

  /** Take the transaction with the highest priority. */
  method PickPriority(pool: Pool, cfg: Config, byScore: seq<Id>, w: Work) returns (r: Work, x: Id)
    requires Sane(pool, cfg, byScore, w) && w.fPriorityBlock && w.vecPriority != []
    ensures PickKeeps(pool, cfg, byScore, w, r, x, true) && r.actualPriority == pool[x].priority && (pool[x].priority, x) in w.vecPriority
    ensures r == w.(actualPriority := r.actualPriority, vecPriority := r.vecPriority)
    ensures forall e :: e in w.vecPriority ==> e.0 <= r.actualPriority
    ensures forall e :: e in r.vecPriority ==> e in w.vecPriority
  {
    hide GoodBlock, SizeOf, SigOpsOf, FeesOf, Orphan;
    var k := Highest(w.vecPriority);
    x := w.vecPriority[k].1;
    r := w.(actualPriority := w.vecPriority[k].0, vecPriority := Without(w.vecPriority, k));
    forall y | y != x && InQueue(w.vecPriority, y)
      ensures InQueue(r.vecPriority, y)
    {
      var i :| 0 <= i < |w.vecPriority| && w.vecPriority[i].1 == y;
      WithoutKeeps(w.vecPriority, k, i);
    }
  }

  /** Of some transactions, the one that comes first by score. */
  predicate FirstByScore(byScore: seq<Id>, v: seq<Id>, x: Id) {
    x in v && exists i :: 0 <= i < |byScore| && byScore[i] == x && forall j :: 0 <= j < i ==> byScore[j] !in v
  }

  method Foremost(byScore: seq<Id>, v: seq<Id>) returns (k: nat)
    requires v != [] && forall x :: x in v ==> x in byScore
    ensures k < |v| && FirstByScore(byScore, v, v[k])
  {
    var i := 0;
    assert v[0] in byScore;
    while byScore[i] !in v
      invariant i < |byScore| && forall j :: 0 <= j < i ==> byScore[j] !in v
      invariant v[0] in byScore[i..]
      decreases |byScore| - i
    {
      i := i + 1;
    }
    k :| 0 <= k < |v| && v[k] == byScore[i];
  }

  /** Take the postponed child that comes first by score. */
  method PickCleared(pool: Pool, cfg: Config, byScore: seq<Id>, w: Work) returns (r: Work, x: Id)
    requires Sane(pool, cfg, byScore, w) && Lists(byScore, pool) && w.clearedTxs != [] && (w.fPriorityBlock ==> w.vecPriority == [])
    ensures PickKeeps(pool, cfg, byScore, w, r, x, false) && r == w.(clearedTxs := r.clearedTxs)
    ensures FirstByScore(byScore, w.clearedTxs, x)
  {
    hide GoodBlock, SizeOf, SigOpsOf, FeesOf, Orphan, Prioritized, FirstByScore;
    var k := Foremost(byScore, w.clearedTxs);
    x := w.clearedTxs[k];
    r := w.(clearedTxs := Without(w.clearedTxs, k));
    forall y | y in w.clearedTxs && y != x
      ensures y in r.clearedTxs
    {
      var i :| 0 <= i < |w.clearedTxs| && w.clearedTxs[i] == y;
      WithoutKeeps(w.clearedTxs, k, i);
    }
  }

  /** Take the next transaction: from the priority queue while that phase lasts, else a postponed child, else the
      next one by score. */
  method Pick(pool: Pool, cfg: Config, byScore: seq<Id>, w: Work) returns (r: Work, x: Id, priorityTx: bool)
    requires Sane(pool, cfg, byScore, w) && Lists(byScore, pool) && (w.mi < |byScore| || w.clearedTxs != [])
    ensures PickKeeps(pool, cfg, byScore, w, r, x, priorityTx) && priorityTx == (w.fPriorityBlock && w.vecPriority != [])
    ensures r == w.(actualPriority := r.actualPriority, vecPriority := r.vecPriority, clearedTxs := r.clearedTxs, mi := r.mi)
    ensures priorityTx ==> r.actualPriority == pool[x].priority && r.mi == w.mi && r.clearedTxs == w.clearedTxs
                           && (pool[x].priority, x) in w.vecPriority && forall e :: e in w.vecPriority ==> e.0 <= r.actualPriority
    ensures forall e :: e in r.vecPriority ==> e in w.vecPriority
    ensures !priorityTx && w.clearedTxs == [] ==> w.mi < |byScore| && x == byScore[w.mi] && r == w.(mi := w.mi + 1)
    ensures !priorityTx && w.clearedTxs != [] ==> FirstByScore(byScore, w.clearedTxs, x)
  {
    hide Sane, Accounted, FirstByScore, Lists;
    priorityTx := false;
    if w.fPriorityBlock && w.vecPriority != [] {
      priorityTx := true;
      r, x := PickPriority(pool, cfg, byScore, w);
    } else if w.clearedTxs == [] {
      x := byScore[w.mi];
      r := w.(mi := w.mi + 1);
      NextByScore(pool, cfg, byScore, w);
    } else {
      r, x := PickCleared(pool, cfg, byScore, w);
    }
  }

  lemma NextByScore(pool: Pool, cfg: Config, byScore: seq<Id>, w: Work)
    requires Sane(pool, cfg, byScore, w) && w.mi < |byScore| && (w.fPriorityBlock ==> w.vecPriority == [])
    ensures PickKeeps(pool, cfg, byScore, w, w.(mi := w.mi + 1), byScore[w.mi], false)
  {
    hide GoodBlock, SizeOf, SigOpsOf, FeesOf, Orphan, Prioritized;
    assert byScore[w.mi..] == [byScore[w.mi]] + byScore[w.mi + 1..];
  }

  /** Whether a parent is missing, found by looking at the parents one by one. */
  method MissesParent(pool: Pool, inBlock: set<Id>, x: Id) returns (fOrphan: bool)
    requires x in pool
    ensures fOrphan == Orphan(pool, inBlock, x)
  {
    var parents := pool[x].parents;
    fOrphan := false;
    while parents != {} && !fOrphan
      invariant parents <= pool[x].parents
      invariant fOrphan ==> Orphan(pool, inBlock, x)
      invariant !fOrphan ==> forall p :: p in pool[x].parents && p !in parents ==> p in inBlock
      decreases parents, !fOrphan
    {
      var parent :| parent in parents;
      parents := parents - {parent};
      if parent !in inBlock {
        fOrphan := true;
      }
    }
  }

  function Children(pool: Pool, x: Id): (r: set<Id>) { set c | c in pool && x in pool[c].parents }

  predicate FromMap(m: map<Id, real>, e: (real, Id)) { e.1 in m && m[e.1] == e.0 }

  /** A child waits no more but is queued again; the others are left alone. */
  ghost predicate Released(pool: Pool, w: Work, r: Work, kids: set<Id>) {
    && r == w.(vecPriority := r.vecPriority, waitPriMap := r.waitPriMap, clearedTxs := r.clearedTxs, waitSet := r.waitSet)
    && (forall c :: InQueue(w.vecPriority, c) ==> InQueue(r.vecPriority, c))
    && (forall c :: c in w.clearedTxs ==> c in r.clearedTxs)
    && (forall k :: 0 <= k < |r.vecPriority| ==> r.vecPriority[k] in w.vecPriority || FromMap(w.waitPriMap, r.vecPriority[k]))
    && (forall c :: c in r.waitPriMap ==> FromMap(w.waitPriMap, (r.waitPriMap[c], c)))
    && (forall k :: 0 <= k < |r.clearedTxs| ==> r.clearedTxs[k] in w.clearedTxs || r.clearedTxs[k] in kids)
    && r.waitSet <= w.waitSet && (w.waitSet == {} || w.fPriorityBlock ==> r.clearedTxs == w.clearedTxs)
    && (w.fPriorityBlock ==> forall c :: c in w.waitPriMap ==> c in r.waitPriMap || InQueue(r.vecPriority, c))
    && (w.fPriorityBlock ==> forall c :: c in w.waitPriMap && c !in kids ==> c in r.waitPriMap)
    && (w.fPriorityBlock ==> forall c :: c in kids ==> c !in r.waitPriMap)
    && (!w.fPriorityBlock ==> forall c :: c in w.waitSet ==> c in r.waitSet || c in r.clearedTxs)
    && (!w.fPriorityBlock ==> forall c :: c in kids ==> c !in r.waitSet)
  }

  /** Queue one child again if it waits. */
  function RequeueOne(w: Work, child: Id): Work {
    if w.fPriorityBlock then
      if child in w.waitPriMap
      then w.(vecPriority := w.vecPriority + [(w.waitPriMap[child], child)], waitPriMap := w.waitPriMap - {child})
      else w
    else
      if child in w.waitSet then w.(clearedTxs := w.clearedTxs + [child], waitSet := w.waitSet - {child})
      else w
  }

  lemma QueueGrows(v: seq<(real, Id)>, e: (real, Id))
    ensures InQueue(v + [e], e.1) && forall c :: InQueue(v, c) ==> InQueue(v + [e], c)
    ensures forall c :: InQueue(v + [e], c) ==> InQueue(v, c) || c == e.1
  {
    assert (v + [e])[|v|] == e;
    forall c | InQueue(v, c)
      ensures InQueue(v + [e], c)
    {
      var k :| 0 <= k < |v| && v[k].1 == c;
      assert (v + [e])[k].1 == c;
    }
  }

  lemma RequeueReleases(pool: Pool, w: Work, m: Work, done: set<Id>, child: Id)
    requires Released(pool, w, m, done) && m.fPriorityBlock == w.fPriorityBlock
    ensures Released(pool, w, RequeueOne(m, child), done + {child})
  {
    if m.fPriorityBlock && child in m.waitPriMap {
      QueueGrows(m.vecPriority, (m.waitPriMap[child], child));
    }
  }

  /** Look at all children of a transaction that was added. */
  method ReleaseChildren(pool: Pool, w: Work, x: Id) returns (r: Work)
    ensures Released(pool, w, r, Children(pool, x))
  {
    hide Released;
    var todo := Children(pool, x);
    ghost var done: set<Id> := {};
    r := w;
    ReleaseNone(pool, w);
    while todo != {}
      invariant done + todo == Children(pool, x)
      invariant Released(pool, w, r, done) && r.fPriorityBlock == w.fPriorityBlock
      decreases todo
    {
      var child :| child in todo;
      RequeueReleases(pool, w, r, done, child);
      r := RequeueOne(r, child);
      todo, done := todo - {child}, done + {child};
    }
  }

  lemma ReleaseNone(pool: Pool, w: Work)
    ensures Released(pool, w, w, {})
  {
    forall k | 0 <= k < |w.vecPriority|
      ensures InQueue(w.vecPriority, w.vecPriority[k].1)
    {
    }
  }

  // --- one transaction --------------------------------------------------------------------------------

  /** The pass by score lists the pool, each transaction once. */
  ghost predicate Lists(byScore: seq<Id>, pool: Pool) {
    Distinct(byScore) && InPool(pool, byScore) && forall x :: x in pool ==> x in byScore
  }

  /** There is room for the whole pool, and nothing in it would be turned away. */
  ghost predicate Roomy(pool: Pool, cfg: Config, byScore: seq<Id>) {
    && Lists(byScore, pool)
    && 1000 + SizeOf(pool, byScore) < cfg.nBlockMaxSize && 100 + SigOpsOf(pool, byScore) < cfg.nMaxSigOps
    && (forall x :: x in pool ==> pool[x].isFinal)
    && (AllWelcome(pool, cfg, byScore) || AllFree(pool, cfg, byScore))
  }

  /** Every transaction pays, or the whole pool stays below the minimum size. */
  ghost predicate AllWelcome(pool: Pool, cfg: Config, byScore: seq<Id>) {
    (forall x :: x in pool ==> Pays(pool, cfg, x)) || 1000 + SizeOf(pool, byScore) < cfg.nBlockMinSize
  }

  /** The whole pool fits into the part for priorities, and every transaction may go in without a fee. */
  ghost predicate AllFree(pool: Pool, cfg: Config, byScore: seq<Id>) {
    1000 + SizeOf(pool, byScore) < cfg.nBlockPrioritySize && forall x :: x in pool ==> cfg.allowFree(pool[x].priority)
  }

  lemma RoomForOne(pool: Pool, cfg: Config, byScore: seq<Id>, vtx: seq<Id>, x: Id)
    requires Roomy(pool, cfg, byScore) && InPool(pool, vtx) && Distinct(vtx) && x in pool && x !in vtx
    ensures 1000 + SizeOf(pool, vtx) + pool[x].nTxSize < cfg.nBlockMaxSize
    ensures 100 + SigOpsOf(pool, vtx) + pool[x].nSigOps < cfg.nMaxSigOps
    ensures AllFree(pool, cfg, byScore) ==> 1000 + SizeOf(pool, vtx) + pool[x].nTxSize < cfg.nBlockPrioritySize
    ensures AllWelcome(pool, cfg, byScore) ==> Pays(pool, cfg, x) || 1000 + SizeOf(pool, vtx) + pool[x].nTxSize < cfg.nBlockMinSize
  {
    var more := vtx + [x];
    assert more[..|more| - 1] == vtx;
    forall i | 0 <= i < |more|
      ensures more[i] in byScore
    {
      assert i < |vtx| ==> vtx[i] in pool;
    }
    TotalSublist(Sizes(pool), more, byScore);
    TotalSublist(SigOps(pool), more, byScore);
  }

  /** Put a transaction aside until a parent is added. */
  function Postponed(w: Work, x: Id, priorityTx: bool): (r: Work) {
    if priorityTx then if x in w.waitPriMap then w else w.(waitPriMap := w.waitPriMap[x := w.actualPriority])
    else w.(waitSet := w.waitSet + {x})
  }

  /** The priority phase ends at a transaction that is too large for it or may not go without a fee. */
  function PhaseChecked(cfg: Config, w: Work, nTxSize: nat): (r: Work) {
    if w.fPriorityBlock && (w.nBlockSize + nTxSize >= cfg.nBlockPrioritySize || !cfg.allowFree(w.actualPriority))
    then w.(fPriorityBlock := false, waitPriMap := map[]) else w
  }

  function Appended(pool: Pool, w: Work, x: Id): (r: Work)
    requires x in pool
  {
    w.(vtx := w.vtx + [x], inBlock := w.inBlock + {x}, nBlockSize := w.nBlockSize + pool[x].nTxSize,
       nBlockSigOps := w.nBlockSigOps + pool[x].nSigOps, nFees := w.nFees + pool[x].nFee)
  }

  datatype Verdict = Add | Skip | Stop

  /** A transaction that does not pay is not wanted any more, and the pass by score need not go on. */
  predicate Unwanted(pool: Pool, cfg: Config, w: Work, x: Id, priorityTx: bool)
    requires x in pool
  {
    !priorityTx && !Pays(pool, cfg, x) && w.nBlockSize >= cfg.nBlockMinSize
  }

  /** A block is full but for a hundred bytes, or more than fifty transactions did not fit into the last thousand. */
  predicate FewBytes(cfg: Config, w: Work) { w.nBlockSize > cfg.nBlockMaxSize - 100 || w.lastFewTxs > 50 }

  predicate FewSigOps(cfg: Config, w: Work) { w.nBlockSigOps > (cfg.nMaxSigOps - 2) % U32 }

  predicate NearlyFull(cfg: Config, w: Work) { FewBytes(cfg, w) || FewSigOps(cfg, w) }

  predicate TooLong(pool: Pool, cfg: Config, w: Work, x: Id)
    requires x in pool
  {
    w.nBlockSize + pool[x].nTxSize >= cfg.nBlockMaxSize
  }

  /** Whether a transaction whose parents are in the block goes in too: exactly if it is wanted and not excluded. The
      search stops at an unwanted one, and at an excluded one when there are few bytes or signature operations left. */
  method Judge(pool: Pool, cfg: Config, w: Work, x: Id, priorityTx: bool) returns (v: Verdict, lastFewTxs: nat)
    requires x in pool && cfg.nBlockMaxSize >= 1000
    ensures v.Add? <==> !Unwanted(pool, cfg, w, x, priorityTx) && !Excluded(pool, cfg, w, x)
    ensures v.Stop? ==> Unwanted(pool, cfg, w, x, priorityTx) || (Excluded(pool, cfg, w, x) && NearlyFull(cfg, w))
    ensures Unwanted(pool, cfg, w, x, priorityTx) ==> v.Stop?
    ensures !Unwanted(pool, cfg, w, x, priorityTx) && TooLong(pool, cfg, w, x) ==> (v.Stop? <==> FewBytes(cfg, w))
    ensures !Unwanted(pool, cfg, w, x, priorityTx) && !TooLong(pool, cfg, w, x) && !v.Add? ==>
              (v.Stop? <==> pool[x].isFinal && FewSigOps(cfg, w))
    ensures var counts := v.Skip? && TooLong(pool, cfg, w, x) && w.nBlockSize > cfg.nBlockMaxSize - 1000;
            lastFewTxs == if counts then w.lastFewTxs + 1 else w.lastFewTxs
  {
    lastFewTxs := w.lastFewTxs;
    var nTxSize := pool[x].nTxSize;
    if !priorityTx && pool[x].nModifiedFee < cfg.minRelayFee(nTxSize) && w.nBlockSize >= cfg.nBlockMinSize {
      return Stop, lastFewTxs;
    }
    if w.nBlockSize + nTxSize >= cfg.nBlockMaxSize {
      if w.nBlockSize > cfg.nBlockMaxSize - 100 || w.lastFewTxs > 50 {
        return Stop, lastFewTxs;
      }
      if w.nBlockSize > cfg.nBlockMaxSize - 1000 {
        lastFewTxs := lastFewTxs + 1;
      }
      return Skip, lastFewTxs;
    }
    if !pool[x].isFinal {
      return Skip, lastFewTxs;
    }
    if w.nBlockSigOps + pool[x].nSigOps >= cfg.nMaxSigOps {
      if w.nBlockSigOps > (cfg.nMaxSigOps - 2) % U32 {
        return Stop, lastFewTxs;
      }
      return Skip, lastFewTxs;
    }
    v := Add;
  }

  /** The sets of transactions taken out of the passes, one of them empty. */
  function Scored(x: Id, priorityTx: bool): set<Id> { if priorityTx then {} else {x} }
  function Prior(x: Id, priorityTx: bool): set<Id> { if priorityTx then {x} else {} }

  lemma PostponeAccounted(pool: Pool, cfg: Config, byScore: seq<Id>, w: Work, x: Id, priorityTx: bool)
    requires Accounted(pool, cfg, byScore, w, Scored(x, priorityTx), Prior(x, priorityTx)) && x in pool && Orphan(pool, w.inBlock, x)
    requires priorityTx ==> w.fPriorityBlock
    ensures Accounted(pool, cfg, byScore, Postponed(w, x, priorityTx), {}, {})
  {
    hide Orphan;
  }

  lemma PhaseAccounted(pool: Pool, cfg: Config, byScore: seq<Id>, w: Work, nTxSize: nat, scored: set<Id>, prioritized: set<Id>)
    requires Accounted(pool, cfg, byScore, w, scored, prioritized)
    ensures Accounted(pool, cfg, byScore, PhaseChecked(cfg, w, nTxSize), scored, prioritized)
  {
    hide Orphan;
  }

  lemma SkipAccounted(pool: Pool, cfg: Config, byScore: seq<Id>, w: Work, x: Id, priorityTx: bool, n: nat)
    requires Accounted(pool, cfg, byScore, w, Scored(x, priorityTx), Prior(x, priorityTx)) && x in pool && Excluded(pool, cfg, w, x)
    ensures Accounted(pool, cfg, byScore, w.(lastFewTxs := n), {}, {})
  {
    hide Orphan;
  }

  lemma InBlockAccounted(pool: Pool, cfg: Config, byScore: seq<Id>, w: Work, x: Id, priorityTx: bool)
    requires Accounted(pool, cfg, byScore, w, Scored(x, priorityTx), Prior(x, priorityTx)) && x in w.inBlock
    ensures Accounted(pool, cfg, byScore, w, {}, {})
  {
    hide Orphan, Excluded, InScorePass, InPriorityPass;
  }

  /** Who was in the pass by score still is when a transaction was added and its children released. */
  lemma AddScored(pool: Pool, byScore: seq<Id>, w: Work, x: Id, r: Work, y: Id)
    requires x in pool && y in pool && y != x && w.mi <= |byScore| && !w.fPriorityBlock && InScorePass(pool, byScore, w, y)
    requires Released(pool, Appended(pool, w, x), r, Children(pool, x))
    ensures InScorePass(pool, byScore, r, y)
  {
    if Orphan(pool, w.inBlock, y) && y !in Children(pool, x) {
      var p :| p in pool[y].parents && p !in w.inBlock;
      assert p != x && p !in r.inBlock;
    }
  }

  lemma AddPrioritized(pool: Pool, w: Work, x: Id, r: Work, y: Id)
    requires x in pool && y in pool && y != x && w.fPriorityBlock && InPriorityPass(pool, w, y)
    requires Released(pool, Appended(pool, w, x), r, Children(pool, x))
    ensures InPriorityPass(pool, r, y)
  {
    if Orphan(pool, w.inBlock, y) && y !in Children(pool, x) {
      var p :| p in pool[y].parents && p !in w.inBlock;
      assert p != x && p !in r.inBlock;
    }
  }

  lemma StillExcluded(pool: Pool, cfg: Config, w: Work, x: Id, r: Work, y: Id)
    requires x in pool && y in pool && Excluded(pool, cfg, w, y) && Released(pool, Appended(pool, w, x), r, Children(pool, x))
    ensures Excluded(pool, cfg, r, y)
  {
  }

  lemma AddAccounted(pool: Pool, cfg: Config, byScore: seq<Id>, w: Work, x: Id, r: Work, priorityTx: bool)
    requires Lists(byScore, pool) && x in pool && x !in w.inBlock && !Orphan(pool, w.inBlock, x) && !Excluded(pool, cfg, w, x)
    requires Accounted(pool, cfg, byScore, w, Scored(x, priorityTx), Prior(x, priorityTx))
    requires Released(pool, Appended(pool, w, x), r, Children(pool, x))
    ensures Accounted(pool, cfg, byScore, r, {}, {})
  {
    hide Orphan, Excluded, InScorePass, InPriorityPass;
    ReleaseSame(pool, Appended(pool, w, x), r, Children(pool, x));
    forall y | y in pool && y !in r.inBlock
      ensures Excluded(pool, cfg, r, y) || InScorePass(pool, byScore, r, y)
      ensures r.fPriorityBlock ==> Excluded(pool, cfg, r, y) || InPriorityPass(pool, r, y)
    {
      if Excluded(pool, cfg, w, y) {
        StillExcluded(pool, cfg, w, x, r, y);
      } else if w.fPriorityBlock {
        AddPrioritized(pool, w, x, r, y);
        FromTheStart(pool, byScore, r, y);
      } else {
        AddScored(pool, byScore, w, x, r, y);
      }
    }
  }

  lemma FromTheStart(pool: Pool, byScore: seq<Id>, w: Work, y: Id)
    requires Lists(byScore, pool) && w.mi == 0 && y in pool
    ensures InScorePass(pool, byScore, w, y)
  {
    assert byScore[0..] == byScore;
  }

  lemma SaneAfterAdd(pool: Pool, cfg: Config, byScore: seq<Id>, w: Work, x: Id, r: Work)
    requires Sane(pool, cfg, byScore, w) && x in pool && x !in w.inBlock && !Orphan(pool, w.inBlock, x) && pool[x].isFinal
    requires w.nBlockSize + pool[x].nTxSize < cfg.nBlockMaxSize && w.nBlockSigOps + pool[x].nSigOps < cfg.nMaxSigOps
    requires Released(pool, Appended(pool, w, x), r, Children(pool, x))
    ensures Sane(pool, cfg, byScore, r)
  {
    GoodAppend(pool, cfg, w.vtx, x);
    ReleasedPrioritized(pool, Appended(pool, w, x), r, Children(pool, x));
    hide GoodBlock, SizeOf, SigOpsOf, FeesOf, Prioritized;
  }

  lemma ReleasedPrioritized(pool: Pool, w: Work, r: Work, kids: set<Id>)
    requires Prioritized(pool, w.vecPriority, w.waitPriMap) && Released(pool, w, r, kids)
    ensures Prioritized(pool, r.vecPriority, r.waitPriMap)
  {
  }

  lemma SaneAside(pool: Pool, cfg: Config, byScore: seq<Id>, w: Work, x: Id, priorityTx: bool, nTxSize: nat)
    requires Sane(pool, cfg, byScore, w) && x in pool && (priorityTx ==> w.actualPriority == pool[x].priority)
    ensures x in w.inBlock <==> x in w.vtx
    ensures Sane(pool, cfg, byScore, Postponed(w, x, priorityTx))
    ensures Sane(pool, cfg, byScore, PhaseChecked(cfg, w, nTxSize))
  {
    hide GoodBlock, SizeOf, SigOpsOf, FeesOf, InPool;
  }

  /** The priority phase lasts as long as transactions depend on it. */
  ghost predicate Lasting(pool: Pool, cfg: Config, byScore: seq<Id>, w: Work) { w.fPriorityBlock || AllWelcome(pool, cfg, byScore) }

  /** With room for all, nobody is excluded; a transaction that is looked at is wanted, or comes from the priority queue
      and does not end the phase. */
  lemma PhaseLasts(pool: Pool, cfg: Config, byScore: seq<Id>, w: Work, x: Id, priorityTx: bool)
    requires Sane(pool, cfg, byScore, w) && Roomy(pool, cfg, byScore) && x in pool && x !in w.inBlock && !Orphan(pool, w.inBlock, x)
    requires Lasting(pool, cfg, byScore, w) && Accounted(pool, cfg, byScore, w, Scored(x, priorityTx), Prior(x, priorityTx))
    requires priorityTx ==> w.actualPriority == pool[x].priority
    requires w.fPriorityBlock && !priorityTx ==> w.mi > 0
    ensures var r := PhaseChecked(cfg, w, pool[x].nTxSize);
            && Lasting(pool, cfg, byScore, r) && !Excluded(pool, cfg, r, x) && !Unwanted(pool, cfg, r, x, priorityTx)
            && (AllFree(pool, cfg, byScore) && w.fPriorityBlock ==> r.fPriorityBlock)
  {
    hide Pays, GoodBlock, Orphan, InScorePass, InPriorityPass;
    GoodMeans(pool, cfg, w.vtx);
    RoomForOne(pool, cfg, byScore, w.vtx, x);
  }

  lemma GoodMeans(pool: Pool, cfg: Config, vtx: seq<Id>)
    requires GoodBlock(pool, cfg, vtx)
    ensures InPool(pool, vtx) && Distinct(vtx)
  {
  }

  /** No transaction of the pool spends another's outputs. */
  predicate Independent(pool: Pool) { forall x :: x in pool ==> pool[x].parents == {} }

  /** Nobody waits, and the queues only get shorter. */
  ghost predicate Quiet(w: Work, r: Work) {
    && r.waitPriMap == map[] && r.waitSet == {} && r.mi == w.mi
    && (forall e :: e in r.vecPriority ==> e in w.vecPriority) && r.clearedTxs == w.clearedTxs
  }

  lemma NoOrphan(pool: Pool, inBlock: set<Id>, x: Id)
    requires Independent(pool) && x in pool
    ensures !Orphan(pool, inBlock, x) && Children(pool, x) == {}
  {
  }

  lemma ReleaseQuiet(pool: Pool, w: Work, r: Work)
    requires Released(pool, w, r, {}) && w.waitPriMap == map[] && w.waitSet == {}
    ensures Quiet(w, r)
  {
  }

  /** Why the search for transactions ends early: at one whose parents are in the block, that is not wanted, or excluded
      when the block is nearly full. */
  ghost predicate EndedAt(pool: Pool, cfg: Config, w: Work, x: Id) {
    && x in pool && x !in w.inBlock && !Orphan(pool, w.inBlock, x)
    && (Unwanted(pool, cfg, w, x, false) || (Excluded(pool, cfg, w, x) && NearlyFull(cfg, w)))
  }

  /** Transactions are counted only once the block is within a thousand bytes of its limit. */
  predicate Counted(cfg: Config, w: Work) { w.lastFewTxs > 0 ==> w.nBlockSize > cfg.nBlockMaxSize - 1000 }

  // --- what goes in free ------------------------------------------------------------------------

  /** The transaction at a place has a priority that may go in free, and ends before the part for priorities does. */
  predicate FreeAt(pool: Pool, cfg: Config, vtx: seq<Id>, i: nat)
    requires i < |vtx|
  {
    vtx[i] in pool && cfg.allowFree(pool[vtx[i]].priority) && 1000 + SizeOf(pool, vtx[..i + 1]) < cfg.nBlockPrioritySize
  }

  /** The transaction at a place pays, or begins below the minimum size. */
  predicate PaidAt(pool: Pool, cfg: Config, vtx: seq<Id>, i: nat)
    requires i < |vtx|
  {
    vtx[i] in pool && (Pays(pool, cfg, vtx[i]) || 1000 + SizeOf(pool, vtx[..i]) < cfg.nBlockMinSize)
  }

  /** The first p transactions were taken by priority; the last of them may have ended that phase. */
  ghost predicate SplitAt(pool: Pool, cfg: Config, vtx: seq<Id>, p: nat, open: bool) {
    && p <= |vtx| && (open ==> p == |vtx| && cfg.nBlockPrioritySize > 0) && (cfg.nBlockPrioritySize == 0 ==> p == 0)
    && (forall i :: 0 <= i < p && (open || i < p - 1) ==> FreeAt(pool, cfg, vtx, i))
    && (forall i :: p <= i < |vtx| ==> PaidAt(pool, cfg, vtx, i))
  }

  /** A block has two parts: in the first all transactions but the last are free by their priority and fit into the part
      for priorities, in the second all pay or begin below the minimum size. */
  ghost predicate Phased(pool: Pool, cfg: Config, vtx: seq<Id>, open: bool) { exists p: nat :: SplitAt(pool, cfg, vtx, p, open) }

  /** Beyond the part for priorities and the minimum size, every transaction but the first pays. */
  ghost predicate Paid(pool: Pool, cfg: Config, vtx: seq<Id>) {
    forall i :: 0 < i < |vtx| && vtx[i] in pool
                && 1000 + SizeOf(pool, vtx[..i]) >= cfg.nBlockPrioritySize && 1000 + SizeOf(pool, vtx[..i]) >= cfg.nBlockMinSize ==>
      Pays(pool, cfg, vtx[i])
  }

  lemma PhasedPaid(pool: Pool, cfg: Config, vtx: seq<Id>)
    requires Phased(pool, cfg, vtx, false)
    ensures Paid(pool, cfg, vtx)
  {
    hide SizeOf, Pays;
    var p: nat :| SplitAt(pool, cfg, vtx, p, false);
    forall i | 0 < i < |vtx|
      ensures PaidAt(pool, cfg, vtx, i) || 1000 + SizeOf(pool, vtx[..i]) < cfg.nBlockPrioritySize
    {
      assert i < p ==> FreeAt(pool, cfg, vtx, i - 1);
    }
  }

  lemma PhaseCloses(pool: Pool, cfg: Config, vtx: seq<Id>, open: bool)
    requires Phased(pool, cfg, vtx, open)
    ensures Phased(pool, cfg, vtx, false)
  {
    hide FreeAt, PaidAt;
    var p: nat :| SplitAt(pool, cfg, vtx, p, open);
    assert SplitAt(pool, cfg, vtx, p, false);
  }

  lemma SamePlaces(pool: Pool, cfg: Config, vtx: seq<Id>, x: Id, i: nat)
    requires i < |vtx|
    ensures FreeAt(pool, cfg, vtx, i) == FreeAt(pool, cfg, vtx + [x], i) && PaidAt(pool, cfg, vtx, i) == PaidAt(pool, cfg, vtx + [x], i)
  {
    hide SizeOf, Pays;
    assert (vtx + [x])[..i] == vtx[..i] && (vtx + [x])[..i + 1] == vtx[..i + 1];
  }

  lemma AppendFree(pool: Pool, cfg: Config, vtx: seq<Id>, x: Id, open: bool)
    requires Phased(pool, cfg, vtx, true) && x in pool
    requires open ==> cfg.allowFree(pool[x].priority) && 1000 + SizeOf(pool, vtx) + pool[x].nTxSize < cfg.nBlockPrioritySize
    ensures Phased(pool, cfg, vtx + [x], open)
  {
    var more, n := vtx + [x], |vtx|;
    if open {
      assert more[..n + 1] == more && more[..n] == vtx;
      assert FreeAt(pool, cfg, more, n);
    }
    hide FreeAt, PaidAt, SizeOf;
    forall i | 0 <= i < n
      ensures FreeAt(pool, cfg, more, i)
    {
      SamePlaces(pool, cfg, vtx, x, i);
    }
    assert SplitAt(pool, cfg, more, n + 1, open);
  }

  lemma AppendPaid(pool: Pool, cfg: Config, vtx: seq<Id>, x: Id)
    requires Phased(pool, cfg, vtx, false) && x in pool && (Pays(pool, cfg, x) || 1000 + SizeOf(pool, vtx) < cfg.nBlockMinSize)
    ensures Phased(pool, cfg, vtx + [x], false)
  {
    var more, n := vtx + [x], |vtx|;
    assert more[..n] == vtx;
    assert PaidAt(pool, cfg, more, n);
    hide FreeAt, PaidAt, SizeOf, Pays;
    var p: nat :| SplitAt(pool, cfg, vtx, p, false);
    forall i | 0 <= i < n
      ensures FreeAt(pool, cfg, more, i) == FreeAt(pool, cfg, vtx, i) && PaidAt(pool, cfg, more, i) == PaidAt(pool, cfg, vtx, i)
    {
      SamePlaces(pool, cfg, vtx, x, i);
    }
    assert SplitAt(pool, cfg, more, p, false);
  }

  /** While the priority phase lasts, only transactions from its queue are added. */
  lemma AddedByPriority(pool: Pool, cfg: Config, byScore: seq<Id>, w: Work, x: Id, priorityTx: bool)
    requires Accounted(pool, cfg, byScore, w, Scored(x, priorityTx), Prior(x, priorityTx)) && x in pool && x !in w.inBlock
    requires !Orphan(pool, w.inBlock, x) && !Excluded(pool, cfg, w, x) && (w.fPriorityBlock && !priorityTx ==> w.mi > 0)
    ensures w.fPriorityBlock ==> priorityTx
  {
    hide Orphan, Excluded, InScorePass, InPriorityPass;
  }

  lemma AddPhased(pool: Pool, cfg: Config, byScore: seq<Id>, w: Work, x: Id, priorityTx: bool)
    requires Sane(pool, cfg, byScore, w) && x in pool && Phased(pool, cfg, w.vtx, w.fPriorityBlock)
    requires priorityTx ==> w.fPriorityBlock && w.actualPriority == pool[x].priority
    requires w.fPriorityBlock ==> priorityTx
    requires !Unwanted(pool, cfg, PhaseChecked(cfg, w, pool[x].nTxSize), x, priorityTx)
    ensures Phased(pool, cfg, w.vtx + [x], PhaseChecked(cfg, w, pool[x].nTxSize).fPriorityBlock)
  {
    hide GoodBlock, Prioritized, SizeOf, SigOpsOf, FeesOf, Phased, Pays;
    if priorityTx {
      AppendFree(pool, cfg, w.vtx, x, PhaseChecked(cfg, w, pool[x].nTxSize).fPriorityBlock);
    } else {
      AppendPaid(pool, cfg, w.vtx, x);
    }
  }

  /** A transaction was just taken out of the queues. */
  ghost predicate InHand(pool: Pool, cfg: Config, byScore: seq<Id>, w: Work, x: Id, priorityTx: bool) {
    && Sane(pool, cfg, byScore, w) && x in pool && cfg.nBlockMaxSize >= 1000 && Lists(byScore, pool)
    && Accounted(pool, cfg, byScore, w, Scored(x, priorityTx), Prior(x, priorityTx))
    && Counted(cfg, w) && Phased(pool, cfg, w.vtx, w.fPriorityBlock)
    && (priorityTx ==> w.fPriorityBlock && w.actualPriority == pool[x].priority)
    && (w.fPriorityBlock && !priorityTx ==> w.mi > 0)
  }

  /** What a round does: the transaction goes in or the block stays; no other is lost, the search stops only for a reason,
      and with room for all it does not. */
  ghost predicate RoundDone(pool: Pool, cfg: Config, byScore: seq<Id>, w: Work, x: Id, r: Work, stop: bool) {
    && Sane(pool, cfg, byScore, r) && Counted(cfg, r) && Phased(pool, cfg, r.vtx, r.fPriorityBlock)
    && ((r.inBlock == w.inBlock && Pending(byScore, r) == Pending(byScore, w)) || (x !in w.inBlock && r.inBlock == w.inBlock + {x}))
    && (!stop ==> Accounted(pool, cfg, byScore, r, {}, {})) && (stop ==> EndedAt(pool, cfg, r, x))
    && (Roomy(pool, cfg, byScore) && Lasting(pool, cfg, byScore, w) ==>
          && !stop && Lasting(pool, cfg, byScore, r) && (Independent(pool) ==> x in r.inBlock)
          && (AllFree(pool, cfg, byScore) && w.fPriorityBlock ==> r.fPriorityBlock))
    && r.vtx == (if r.inBlock == w.inBlock then w.vtx else w.vtx + [x]) && (r.fPriorityBlock ==> w.fPriorityBlock)
    && (Independent(pool) && w.waitPriMap == map[] && w.waitSet == {} ==> Quiet(w, r))
  }

  /** Look at one transaction: it is in the block already, waits for a parent, or its turn has come. */
  method Consider(pool: Pool, cfg: Config, byScore: seq<Id>, w: Work, x: Id, priorityTx: bool) returns (r: Work, stop: bool)
    requires InHand(pool, cfg, byScore, w, x, priorityTx)
    ensures RoundDone(pool, cfg, byScore, w, x, r, stop)
  {
    hide Sane, Independent, AllFree, AllWelcome, Accounted, Orphan, PhaseChecked, Roomy, Lists, Phased, EndedAt;
    r, stop := w, false;
    if x in w.inBlock {
      InBlockAccounted(pool, cfg, byScore, w, x, priorityTx);
      return;
    }
    var fOrphan := MissesParent(pool, w.inBlock, x);
    if fOrphan {
      if Independent(pool) {
        NoOrphan(pool, w.inBlock, x);
      }
      SaneAside(pool, cfg, byScore, w, x, priorityTx, pool[x].nTxSize);
      PostponeAccounted(pool, cfg, byScore, w, x, priorityTx);
      r := Postponed(w, x, priorityTx);
    } else {
      r, stop := TakeTurn(pool, cfg, byScore, w, x, priorityTx);
    }
  }

  /** A transaction whose parents are all in the block goes in or is turned away. */
  method TakeTurn(pool: Pool, cfg: Config, byScore: seq<Id>, w: Work, x: Id, priorityTx: bool) returns (r: Work, stop: bool)
    requires InHand(pool, cfg, byScore, w, x, priorityTx) && x !in w.inBlock && !Orphan(pool, w.inBlock, x)
    ensures RoundDone(pool, cfg, byScore, w, x, r, stop)
  {
    hide Sane, Independent, AllFree, AllWelcome, Accounted, Orphan, PhaseChecked, Released, Roomy, Pays, Excluded, NearlyFull, FewBytes, FewSigOps;
    hide TooLong, Lists, Phased;
    SaneAside(pool, cfg, byScore, w, x, priorityTx, pool[x].nTxSize);
    PhaseSame(cfg, w, pool[x].nTxSize);
    PhaseAccounted(pool, cfg, byScore, w, pool[x].nTxSize, Scored(x, priorityTx), Prior(x, priorityTx));
    PhaseCloses(pool, cfg, w.vtx, w.fPriorityBlock);
    if Roomy(pool, cfg, byScore) && Lasting(pool, cfg, byScore, w) {
      PhaseLasts(pool, cfg, byScore, w, x, priorityTx);
    }
    stop := false;
    r := PhaseChecked(cfg, w, pool[x].nTxSize);
    var v, lastFewTxs := Judge(pool, cfg, r, x, priorityTx);
    if v.Add? {
      SameLimits(pool, cfg, w, x);
      AddedByPriority(pool, cfg, byScore, w, x, priorityTx);
      AddPhased(pool, cfg, byScore, w, x, priorityTx);
      r := Include(pool, cfg, byScore, r, x, priorityTx);
    } else {
      SaneCount(pool, cfg, byScore, r, lastFewTxs);
      if v.Skip? {
        SkipAccounted(pool, cfg, byScore, r, x, priorityTx, lastFewTxs);
      }
      r := r.(lastFewTxs := lastFewTxs);
      stop := v.Stop?;
    }
  }

  /** Append a transaction and queue the children that waited for it. */
  method Include(pool: Pool, cfg: Config, byScore: seq<Id>, before: Work, x: Id, ghost priorityTx: bool) returns (r: Work)
    requires Sane(pool, cfg, byScore, before) && x in pool && x !in before.inBlock && !Orphan(pool, before.inBlock, x) && Lists(byScore, pool)
    requires Accounted(pool, cfg, byScore, before, Scored(x, priorityTx), Prior(x, priorityTx)) && !Excluded(pool, cfg, before, x)
    requires Counted(cfg, before)
    ensures Sane(pool, cfg, byScore, r) && Counted(cfg, r) && Accounted(pool, cfg, byScore, r, {}, {})
    ensures r.inBlock == before.inBlock + {x} && r.vtx == before.vtx + [x] && r.fPriorityBlock == before.fPriorityBlock
    ensures Independent(pool) && before.waitPriMap == map[] && before.waitSet == {} ==> Quiet(before, r)
  {
    hide Sane, Independent, Accounted, Orphan, Released, Excluded, Lists;
    r := ReleaseChildren(pool, Appended(pool, before, x), x);
    NotExcluded(pool, cfg, before, x);
    SaneAfterAdd(pool, cfg, byScore, before, x, r);
    ReleaseSame(pool, Appended(pool, before, x), r, Children(pool, x));
    AddAccounted(pool, cfg, byScore, before, x, r, priorityTx);
    if Independent(pool) && before.waitPriMap == map[] && before.waitSet == {} {
      NoOrphan(pool, before.inBlock, x);
      ReleaseQuiet(pool, Appended(pool, before, x), r);
    }
  }

  lemma SameLimits(pool: Pool, cfg: Config, w: Work, x: Id)
    requires x in pool
    ensures Excluded(pool, cfg, PhaseChecked(cfg, w, pool[x].nTxSize), x) == Excluded(pool, cfg, w, x)
  {
  }

  lemma NotExcluded(pool: Pool, cfg: Config, w: Work, x: Id)
    requires x in pool && !Excluded(pool, cfg, w, x)
    ensures pool[x].isFinal && w.nBlockSize + pool[x].nTxSize < cfg.nBlockMaxSize && w.nBlockSigOps + pool[x].nSigOps < cfg.nMaxSigOps
  {
  }

  lemma SaneCount(pool: Pool, cfg: Config, byScore: seq<Id>, w: Work, n: nat)
    requires Sane(pool, cfg, byScore, w)
    ensures Sane(pool, cfg, byScore, w.(lastFewTxs := n))
  {
  }

  lemma ReleaseSame(pool: Pool, w: Work, r: Work, kids: set<Id>)
    requires Released(pool, w, r, kids)
    ensures r.inBlock == w.inBlock && r.vtx == w.vtx && r.fPriorityBlock == w.fPriorityBlock
    ensures r.nBlockSize == w.nBlockSize && r.lastFewTxs == w.lastFewTxs
  {
  }

  lemma PhaseSame(cfg: Config, w: Work, n: nat)
    ensures var r := PhaseChecked(cfg, w, n);
            && r.nBlockSize == w.nBlockSize && (r.fPriorityBlock ==> w.fPriorityBlock) && r.waitSet == w.waitSet
            && (w.waitPriMap == map[] ==> r.waitPriMap == map[]) && (r.fPriorityBlock ==> r.nBlockSize + n < cfg.nBlockPrioritySize)
            && r.lastFewTxs == w.lastFewTxs
            && r.inBlock == w.inBlock && r.vtx == w.vtx && r.vecPriority == w.vecPriority && r.clearedTxs == w.clearedTxs && r.mi == w.mi
  {
  }

  // --- the whole block ----------------------------------------------------------------------------------

  /** If everything that is not in the block waits for a parent, everything is in the block. */
  lemma {:induction false} NobodyWaits(pool: Pool, rank: Id -> nat, inBlock: set<Id>, x: Id)
    requires Closed(pool) && Acyclic(pool, rank) && x in pool
    requires forall y :: y in pool && y !in inBlock ==> Orphan(pool, inBlock, y)
    ensures x in inBlock
    decreases rank(x)
  {
    if x !in inBlock {
      var p :| p in pool[x].parents && p !in inBlock;
      NobodyWaits(pool, rank, inBlock, p);
    }
  }

  /** When the search ends by itself, the block is maximal. */
  lemma EndMeansMaximal(pool: Pool, cfg: Config, byScore: seq<Id>, w: Work)
    requires Accounted(pool, cfg, byScore, w, {}, {}) && w.mi == |byScore| && w.clearedTxs == []
    ensures Maximal(pool, cfg, w)
  {
    hide Orphan, Excluded;
    assert byScore[w.mi..] == [];
  }

  /** A transaction that a block cannot take: not final, or too many bytes or signature operations. */
  predicate Unfit(pool: Pool, cfg: Config, vtx: seq<Id>, x: Id)
    requires x in pool
  {
    || !pool[x].isFinal || 1000 + SizeOf(pool, vtx) + pool[x].nTxSize >= cfg.nBlockMaxSize
    || 100 + SigOpsOf(pool, vtx) + pool[x].nSigOps >= cfg.nMaxSigOps
  }

  predicate MissesOne(pool: Pool, vtx: seq<Id>, x: Id)
    requires x in pool
  {
    exists p :: p in pool[x].parents && p !in vtx
  }

  /** No transaction is left out without a reason: whatever is not in the block is unfit or misses a parent there; or the
      block is of the minimum size and one that could follow does not pay, or one is unfit and the block is full but for
      a thousand bytes or one signature operation. */
  ghost predicate Finished(pool: Pool, cfg: Config, vtx: seq<Id>) {
    || (forall x :: x in pool && x !in vtx ==> Unfit(pool, cfg, vtx, x) || MissesOne(pool, vtx, x))
    || (exists x :: x in pool && x !in vtx && !MissesOne(pool, vtx, x) && EarlyEnd(pool, cfg, vtx, x))
  }

  predicate EarlyEnd(pool: Pool, cfg: Config, vtx: seq<Id>, x: Id)
    requires x in pool
  {
    || (!Pays(pool, cfg, x) && 1000 + SizeOf(pool, vtx) >= cfg.nBlockMinSize)
    || (Unfit(pool, cfg, vtx, x)
        && (1000 + SizeOf(pool, vtx) > cfg.nBlockMaxSize - 1000 || 100 + SigOpsOf(pool, vtx) > (cfg.nMaxSigOps - 2) % U32))
  }

  lemma SameReasons(pool: Pool, cfg: Config, byScore: seq<Id>, w: Work, x: Id)
    requires Sane(pool, cfg, byScore, w) && x in pool
    ensures x in w.inBlock <==> x in w.vtx
    ensures Excluded(pool, cfg, w, x) == Unfit(pool, cfg, w.vtx, x)
    ensures Orphan(pool, w.inBlock, x) == MissesOne(pool, w.vtx, x)
  {
    hide GoodBlock, Prioritized, SizeOf, SigOpsOf, FeesOf;
  }

  lemma MaximalMeansFinished(pool: Pool, cfg: Config, byScore: seq<Id>, w: Work)
    requires Sane(pool, cfg, byScore, w) && Maximal(pool, cfg, w)
    ensures Finished(pool, cfg, w.vtx)
  {
    hide Sane, Excluded, Unfit, Orphan, MissesOne, EarlyEnd;
    forall x | x in pool && x !in w.vtx
      ensures Unfit(pool, cfg, w.vtx, x) || MissesOne(pool, w.vtx, x)
    {
      SameReasons(pool, cfg, byScore, w, x);
    }
  }

  lemma EndMeansFinished(pool: Pool, cfg: Config, byScore: seq<Id>, w: Work, x: Id)
    requires Sane(pool, cfg, byScore, w) && EndedAt(pool, cfg, w, x) && Counted(cfg, w)
    ensures Finished(pool, cfg, w.vtx)
  {
    hide GoodBlock, Prioritized, SizeOf, SigOpsOf, FeesOf, Orphan, MissesOne, Excluded, Unfit, Pays;
    SameReasons(pool, cfg, byScore, w, x);
    assert EarlyEnd(pool, cfg, w.vtx, x);
  }

  /** With room for all, a maximal block is the whole pool. */
  lemma MaximalMeansDone(pool: Pool, cfg: Config, byScore: seq<Id>, rank: Id -> nat, w: Work)
    requires Closed(pool) && Acyclic(pool, rank) && Roomy(pool, cfg, byScore) && Sane(pool, cfg, byScore, w) && Maximal(pool, cfg, w)
    ensures pool.Keys <= w.inBlock
  {
    hide Orphan, Prioritized;
    GoodMeans(pool, cfg, w.vtx);
    forall y | y in pool && y !in w.inBlock
      ensures Orphan(pool, w.inBlock, y)
    {
      RoomForOne(pool, cfg, byScore, w.vtx, y);
    }
    forall x | x in pool
      ensures x in w.inBlock
    {
      NobodyWaits(pool, rank, w.inBlock, x);
    }
  }

  /** The priority queue at the start: the whole pool, or nothing without a priority phase. */
  method Start(pool: Pool, cfg: Config, byScore: seq<Id>) returns (w: Work)
    requires Lists(byScore, pool)
    ensures Sane(pool, cfg, byScore, w) && Accounted(pool, cfg, byScore, w, {}, {}) && w.vtx == [] && w.lastFewTxs == 0
    ensures w.fPriorityBlock == (cfg.nBlockPrioritySize > 0)
    ensures Roomy(pool, cfg, byScore) ==> Lasting(pool, cfg, byScore, w) && OrderKnown(pool, cfg, byScore, w)
    ensures w.waitPriMap == map[] && w.waitSet == {}
  {
    hide Pays;
    var fPriorityBlock := cfg.nBlockPrioritySize > 0;
    var vecPriority: seq<(real, Id)> := [];
    if fPriorityBlock {
      for i := 0 to |byScore|
        invariant |vecPriority| == i && forall k :: 0 <= k < i ==> vecPriority[k] == (pool[byScore[k]].priority, byScore[k])
      {
        vecPriority := vecPriority + [(pool[byScore[i]].priority, byScore[i])];
      }
    }
    w := Work([], {}, {}, map[], vecPriority, [], 0, 1000, 100, 0, 0, fPriorityBlock, -1.0);
    StartAccounted(pool, cfg, byScore, w);
    TotalNonNegative(Sizes(pool), byScore);
  }

  lemma StartAccounted(pool: Pool, cfg: Config, byScore: seq<Id>, w: Work)
    requires Lists(byScore, pool) && w.mi == 0 && w.clearedTxs == []
    requires w.fPriorityBlock ==> |w.vecPriority| == |byScore| && forall k :: 0 <= k < |byScore| ==> w.vecPriority[k].1 == byScore[k]
    ensures Accounted(pool, cfg, byScore, w, {}, {})
  {
    hide Orphan, Excluded;
    forall x | x in pool
      ensures InScorePass(pool, byScore, w, x) && (w.fPriorityBlock ==> InPriorityPass(pool, w, x))
    {
      var k :| 0 <= k < |byScore| && byScore[k] == x;
      assert byScore[0..] == byScore;
      assert w.fPriorityBlock ==> w.vecPriority[k].1 == x;
    }
  }

  /** Higher priorities come first. */
  predicate HighestFirst(pool: Pool, vtx: seq<Id>) {
    forall i, j :: 0 <= i < j < |vtx| && vtx[i] in pool && vtx[j] in pool ==> pool[vtx[i]].priority >= pool[vtx[j]].priority
  }

  /** Everything still queued has no higher priority than what is in the block. */
  ghost predicate PriorityPass(pool: Pool, w: Work) {
    && w.fPriorityBlock && w.waitPriMap == map[] && w.waitSet == {} && HighestFirst(pool, w.vtx)
    && forall i, e :: 0 <= i < |w.vtx| && w.vtx[i] in pool && e in w.vecPriority ==> pool[w.vtx[i]].priority >= e.0
  }

  /** The block is the list by score up to the next transaction. */
  ghost predicate ScorePass(byScore: seq<Id>, w: Work) {
    && !w.fPriorityBlock && w.waitPriMap == map[] && w.waitSet == {} && w.clearedTxs == []
    && w.mi <= |byScore| && w.vtx == byScore[..w.mi]
  }

  lemma PriorityPassStep(pool: Pool, w: Work, m: Work, r: Work, x: Id, priorityTx: bool)
    requires PriorityPass(pool, w) && x in pool && Quiet(m, r) && r.fPriorityBlock
    requires m == w.(actualPriority := m.actualPriority, vecPriority := m.vecPriority, clearedTxs := m.clearedTxs, mi := m.mi)
    requires forall e :: e in m.vecPriority ==> e in w.vecPriority
    requires priorityTx ==> (pool[x].priority, x) in w.vecPriority && forall e :: e in w.vecPriority ==> e.0 <= pool[x].priority
    requires r.vtx == w.vtx || (priorityTx && r.vtx == w.vtx + [x])
    ensures PriorityPass(pool, r)
  {
  }

  lemma ScorePassStep(pool: Pool, byScore: seq<Id>, w: Work, m: Work, r: Work)
    requires ScorePass(byScore, w) && w.mi < |byScore| && m == w.(mi := w.mi + 1) && Quiet(m, r) && !r.fPriorityBlock
    requires r.vtx == w.vtx + [byScore[w.mi]]
    ensures ScorePass(byScore, r)
  {
    assert byScore[..w.mi + 1] == byScore[..w.mi] + [byScore[w.mi]];
  }

  /** The next transaction by score is not in the block yet. */
  lemma NextNotIn(pool: Pool, byScore: seq<Id>, w: Work)
    requires ScorePass(byScore, w) && Lists(byScore, pool) && w.mi < |byScore|
    ensures byScore[w.mi] !in w.vtx
  {
  }

  /** When the order of an independent pool that fits is known. */
  ghost predicate OrderKnown(pool: Pool, cfg: Config, byScore: seq<Id>, w: Work) {
    && (AllFree(pool, cfg, byScore) ==> PriorityPass(pool, w)) && (cfg.nBlockPrioritySize == 0 ==> ScorePass(byScore, w))
  }

  /** One round keeps the order. */
  lemma OrderKept(pool: Pool, cfg: Config, byScore: seq<Id>, w: Work, m: Work, r: Work, x: Id, priorityTx: bool)
    requires OrderKnown(pool, cfg, byScore, w) && Sane(pool, cfg, byScore, w) && Lists(byScore, pool) && x in pool && Quiet(m, r)
    requires m == w.(actualPriority := m.actualPriority, vecPriority := m.vecPriority, clearedTxs := m.clearedTxs, mi := m.mi)
    requires forall e :: e in m.vecPriority ==> e in w.vecPriority
    requires priorityTx == (w.fPriorityBlock && w.vecPriority != [])
    requires priorityTx ==> (pool[x].priority, x) in w.vecPriority && forall e :: e in w.vecPriority ==> e.0 <= pool[x].priority
    requires !priorityTx && w.clearedTxs == [] ==> w.mi < |byScore| && x == byScore[w.mi] && m == w.(mi := w.mi + 1)
    requires r.vtx == (if x in w.inBlock then w.vtx else w.vtx + [x]) && (r.fPriorityBlock ==> w.fPriorityBlock)
    requires (AllFree(pool, cfg, byScore) && w.fPriorityBlock ==> r.fPriorityBlock) && (w.fPriorityBlock && !priorityTx ==> x in w.inBlock)
    ensures OrderKnown(pool, cfg, byScore, r)
  {
    hide AllFree, GoodBlock, SizeOf, SigOpsOf, FeesOf, Prioritized, PriorityPass, Lists;
    if AllFree(pool, cfg, byScore) {
      PriorityMeans(pool, w);
      PriorityPassStep(pool, w, m, r, x, priorityTx);
    }
    if cfg.nBlockPrioritySize == 0 {
      NextNotIn(pool, byScore, w);
      ScorePassStep(pool, byScore, w, m, r);
    }
  }

  lemma PriorityMeans(pool: Pool, w: Work)
    requires PriorityPass(pool, w)
    ensures w.fPriorityBlock
  {
  }

  /** What the order means for the finished block. */
  lemma OrderMeans(pool: Pool, cfg: Config, byScore: seq<Id>, w: Work)
    requires OrderKnown(pool, cfg, byScore, w) && w.mi == |byScore|
    ensures AllFree(pool, cfg, byScore) ==> HighestFirst(pool, w.vtx)
    ensures cfg.nBlockPrioritySize == 0 ==> w.vtx == byScore
  {
    hide AllFree, HighestFirst;
  }

  lemma IndependentAcyclic(pool: Pool)
    requires Independent(pool)
    ensures Acyclic(pool, (x: Id) => 0)
  {
  }

  /** In an independent pool that fits, the priority queue runs dry only when everything is in the block. */
  lemma DryMeansIn(pool: Pool, cfg: Config, byScore: seq<Id>, w: Work, x: Id)
    requires Independent(pool) && Roomy(pool, cfg, byScore) && Sane(pool, cfg, byScore, w) && x in pool
    requires Accounted(pool, cfg, byScore, w, {x}, {}) && w.fPriorityBlock && w.mi > 0
    ensures x in w.inBlock
  {
    hide Prioritized;
    GoodMeans(pool, cfg, w.vtx);
    if x !in w.inBlock {
      NoOrphan(pool, w.inBlock, x);
      RoomForOne(pool, cfg, byScore, w.vtx, x);
    }
  }

  /** Fill the block. The loop ends: every round adds a transaction or uses up a queue entry. Then the block is maximal, or
      the search ended early for a reason. */
  method Fill(pool: Pool, cfg: Config, byScore: seq<Id>, ghost rank: Id -> nat) returns (w: Work)
    requires Closed(pool) && Lists(byScore, pool) && cfg.nBlockMaxSize >= 1000
    ensures Sane(pool, cfg, byScore, w) && Finished(pool, cfg, w.vtx) && Phased(pool, cfg, w.vtx, false)
    ensures Roomy(pool, cfg, byScore) && Acyclic(pool, rank) ==>
              pool.Keys <= w.inBlock && (Independent(pool) ==> OrderKnown(pool, cfg, byScore, w) && w.mi == |byScore|)
  {
    hide Roomy, Acyclic, Accounted, Lasting, Sane, Independent, OrderKnown, Quiet, Lists, Maximal, EndedAt, Finished;
    ghost var goal := Roomy(pool, cfg, byScore) && Acyclic(pool, rank);
    w := Start(pool, cfg, byScore);
    assert SplitAt(pool, cfg, [], 0, w.fPriorityBlock);
    while w.mi < |byScore| || w.clearedTxs != []
      invariant Sane(pool, cfg, byScore, w) && Accounted(pool, cfg, byScore, w, {}, {}) && Counted(cfg, w)
      invariant Phased(pool, cfg, w.vtx, w.fPriorityBlock)
      invariant goal ==> Lasting(pool, cfg, byScore, w)
      invariant goal && Independent(pool) ==> OrderKnown(pool, cfg, byScore, w) && w.waitPriMap == map[] && w.waitSet == {}
      decreases pool.Keys - w.inBlock, Pending(byScore, w)
    {
      ghost var before := w;
      SaneMeans(pool, cfg, byScore, w);
      var x, priorityTx;
      w, x, priorityTx := Pick(pool, cfg, byScore, w);
      if goal {
        StillLasting(pool, cfg, byScore, before, w);
      }
      if goal && Independent(pool) && w.fPriorityBlock && !priorityTx {
        DryMeansIn(pool, cfg, byScore, w, x);
      }
      ghost var picked := w;
      var stop;
      w, stop := Consider(pool, cfg, byScore, w, x, priorityTx);
      if goal && Independent(pool) {
        OrderKept(pool, cfg, byScore, before, picked, w, x, priorityTx);
        QuietMeans(picked, w);
      }
      assert x in pool.Keys;
      if stop {
        EndMeansFinished(pool, cfg, byScore, w, x);
        PhaseCloses(pool, cfg, w.vtx, w.fPriorityBlock);
        return;
      }
    }
    SaneMeans(pool, cfg, byScore, w);
    EndMeansMaximal(pool, cfg, byScore, w);
    MaximalMeansFinished(pool, cfg, byScore, w);
    PhaseCloses(pool, cfg, w.vtx, w.fPriorityBlock);
    if goal {
      MaximalMeansDone(pool, cfg, byScore, rank, w);
    }
  }

  lemma SaneMeans(pool: Pool, cfg: Config, byScore: seq<Id>, w: Work)
    requires Sane(pool, cfg, byScore, w)
    ensures w.mi <= |byScore|
  {
  }

  lemma QuietMeans(w: Work, r: Work)
    requires Quiet(w, r)
    ensures r.waitPriMap == map[] && r.waitSet == {}
  {
  }

  lemma StillLasting(pool: Pool, cfg: Config, byScore: seq<Id>, w: Work, r: Work)
    requires Lasting(pool, cfg, byScore, w) && r.fPriorityBlock == w.fPriorityBlock
    ensures Lasting(pool, cfg, byScore, r)
  {
  }

  datatype Template = Template(vtx: seq<Id>, coinbaseValue: int, opReturn: bool)

  /** The bytes of a block, with the thousand set aside for its header and coinbase. */
  function BlockSize(pool: Pool, vtx: seq<Id>): int { 1000 + SizeOf(pool, vtx) }

  /** What filling a block may give: a good block, that pays beyond the part for priorities and leaves nothing out without
      a reason, and the whole pool if it fits.
      Without dependencies its order is then that of priorities if all is free, and by score without a priority phase. */
  ghost predicate Outcome(pool: Pool, cfg: Config, byScore: seq<Id>, vtx: seq<Id>) {
    && GoodBlock(pool, cfg, vtx) && Paid(pool, cfg, vtx) && Finished(pool, cfg, vtx) && Phased(pool, cfg, vtx, false)
    && (Roomy(pool, cfg, byScore) && (exists rank: Id -> nat :: Acyclic(pool, rank)) ==> forall x :: x in pool ==> x in vtx)
    && (Roomy(pool, cfg, byScore) && Independent(pool) && AllFree(pool, cfg, byScore) ==> HighestFirst(pool, vtx))
    && (Roomy(pool, cfg, byScore) && Independent(pool) && cfg.nBlockPrioritySize == 0 ==> vtx == byScore)
  }

  /** The limits that every filled block respects. A limit below 5050 leaves no room for any transaction, as the coinbase
      has taken all signature operations. */
  predicate Respected(nMaxBlockSize: nat) { nMaxBlockSize >= 7000 || 1000 <= nMaxBlockSize < 5050 }

  /** A block filled under such a limit respects it, whatever the settings. */
  lemma OutcomeWithinLimit(settings: Settings, nMaxBlockSize: nat, pool: Pool, vtx: seq<Id>)
    requires nMaxBlockSize < U32 && Respected(nMaxBlockSize) && GoodBlock(pool, Budgets(settings, nMaxBlockSize), vtx)
    ensures BlockSize(pool, vtx) <= nMaxBlockSize
  {
    if vtx != [] && nMaxBlockSize < 5050 {
      NoSigOpsLeft(settings, nMaxBlockSize, pool, vtx);
    }
  }

  lemma NoSigOpsLeft(settings: Settings, nMaxBlockSize: nat, pool: Pool, vtx: seq<Id>)
    requires nMaxBlockSize < 5050 && GoodBlock(pool, Budgets(settings, nMaxBlockSize), vtx)
    ensures vtx == []
  {
    hide BlockMaxSize;
    TotalNonNegative(SigOps(pool), vtx);
  }

  /** A byte budget beyond the limit, and one free transaction that fits into it. */
  ghost function LoneSettings(nMaxBlockSize: nat): Settings { Settings(nMaxBlockSize + 2002, 0, 0, (size: nat) => 0, (priority: real) => true) }
  ghost function LonePool(nMaxBlockSize: nat): Pool { map[0 := Entry(nMaxBlockSize + 1, 0, 0, 0, 0.0, true, {})] }

  lemma LoneFacts(nMaxBlockSize: nat)
    requires !Respected(nMaxBlockSize)
    ensures var cfg, pool := Budgets(LoneSettings(nMaxBlockSize), nMaxBlockSize), LonePool(nMaxBlockSize);
            && cfg.nBlockMaxSize == nMaxBlockSize + 2002 && cfg.nBlockPrioritySize == cfg.nBlockMinSize == 0 && Pays(pool, cfg, 0)
            && SizeOf(pool, [0]) == nMaxBlockSize + 1 && SigOpsOf(pool, [0]) == 0 && Acyclic(pool, (x: Id) => 0)
  {
    var pool := LonePool(nMaxBlockSize);
    assert Total(Sizes(pool), [0]) == Total(Sizes(pool), []) + Sizes(pool)(0);
    assert Total(SigOps(pool), [0]) == Total(SigOps(pool), []) + SigOps(pool)(0);
  }

  /** It is filled into a block if any transaction is. */
  lemma LoneFilled(nMaxBlockSize: nat)
    requires !Respected(nMaxBlockSize)
    ensures Outcome(LonePool(nMaxBlockSize), Budgets(LoneSettings(nMaxBlockSize), nMaxBlockSize), [0], if nMaxBlockSize >= 5050 then [0] else [])
  {
    var cfg, pool := Budgets(LoneSettings(nMaxBlockSize), nMaxBlockSize), LonePool(nMaxBlockSize);
    var vtx: seq<Id> := if nMaxBlockSize >= 5050 then [0] else [];
    LoneFacts(nMaxBlockSize);
    hide Budgets, BlockMaxSize, Acyclic;
    assert SplitAt(pool, cfg, vtx, 0, false) && Finished(pool, cfg, vtx);
    PhasedPaid(pool, cfg, vtx);
  }

  lemma LoneTooBig(nMaxBlockSize: nat, vtx: seq<Id>)
    requires !Respected(nMaxBlockSize) && Outcome(LonePool(nMaxBlockSize), Budgets(LoneSettings(nMaxBlockSize), nMaxBlockSize), [0], vtx)
    ensures BlockSize(LonePool(nMaxBlockSize), vtx) > nMaxBlockSize
  {
    var cfg, pool := Budgets(LoneSettings(nMaxBlockSize), nMaxBlockSize), LonePool(nMaxBlockSize);
    LoneFacts(nMaxBlockSize);
    hide Budgets, BlockMaxSize, Acyclic, Phased, Paid, Finished;
    TotalNonNegative(Sizes(pool), vtx);
    if nMaxBlockSize >= 5050 {
      assert Roomy(pool, cfg, [0]);
      assert 0 in vtx;
      TotalSublist(Sizes(pool), [0], vtx);
    }
  }

  /** Under any other limit some settings and some pool always give a block beyond it. */
  lemma OutcomeBeyondLimit(nMaxBlockSize: nat) returns (settings: Settings, pool: Pool)
    requires !Respected(nMaxBlockSize)
    ensures Closed(pool) && Lists([0], pool)
    ensures exists vtx :: Outcome(pool, Budgets(settings, nMaxBlockSize), [0], vtx)
    ensures forall vtx :: Outcome(pool, Budgets(settings, nMaxBlockSize), [0], vtx) ==> BlockSize(pool, vtx) > nMaxBlockSize
  {
    hide Outcome, Budgets, BlockSize;
    settings, pool := LoneSettings(nMaxBlockSize), LonePool(nMaxBlockSize);
    LoneFilled(nMaxBlockSize);
    forall vtx | Outcome(pool, Budgets(settings, nMaxBlockSize), [0], vtx)
      ensures BlockSize(pool, vtx) > nMaxBlockSize
    {
      LoneTooBig(nMaxBlockSize, vtx);
    }
  }

  /** The limits that blocks respect, whatever the settings and the pool, are exactly those, and every limit that can
      occur is one of them. */
  lemma BlocksWithinLimitIff(nMaxBlockSize: nat)
    requires nMaxBlockSize < U32
    ensures (forall settings, pool, byScore, vtx :: Lists(byScore, pool) && Outcome(pool, Budgets(settings, nMaxBlockSize), byScore, vtx) ==>
               BlockSize(pool, vtx) <= nMaxBlockSize) <==> Respected(nMaxBlockSize)
    ensures Admitted(nMaxBlockSize) ==> Respected(nMaxBlockSize)
  {
    if Respected(nMaxBlockSize) {
      forall settings, pool, byScore, vtx | Lists(byScore, pool) && Outcome(pool, Budgets(settings, nMaxBlockSize), byScore, vtx)
        ensures BlockSize(pool, vtx) <= nMaxBlockSize
      {
        OutcomeWithinLimit(settings, nMaxBlockSize, pool, vtx);
      }
    } else {
      var settings, pool := OutcomeBeyondLimit(nMaxBlockSize);
    }
  }

  /** The block: no transaction twice, every one after all its parents, within both budgets, and a coinbase worth the
      fees and the grant. If the whole pool fits and nothing in it is below the fee limit or not final, the block
      takes the whole pool. */
  method PopulateBlock(pool: Pool, settings: Settings, nMaxBlockSize: nat, byScore: seq<Id>, nHeight: int, prevIsGenesis: bool,
                       testnet: bool)
    returns (t: Template)
    requires Closed(pool) && Lists(byScore, pool)
    ensures Outcome(pool, Budgets(settings, nMaxBlockSize), byScore, t.vtx)
    ensures nMaxBlockSize < U32 && Respected(nMaxBlockSize) ==> BlockSize(pool, t.vtx) <= nMaxBlockSize
    ensures t.coinbaseValue == FeesOf(pool, t.vtx) + Coins.FirstGrant(nHeight, prevIsGenesis, testnet)
    ensures t.opReturn <==> t.coinbaseValue == 0
  {
    hide Roomy, Acyclic, GoodBlock, Paid, Finished, Phased, FeesOf, BlockSize, Independent, OrderKnown, AllFree, HighestFirst;
    if Independent(pool) {
      IndependentAcyclic(pool);
    }
    var cfg := Budgets(settings, nMaxBlockSize);
    ghost var rank: Id -> nat := (x: Id) => 0;
    if exists r: Id -> nat :: Acyclic(pool, r) {
      rank :| Acyclic(pool, rank);
    }
    var w := Fill(pool, cfg, byScore, rank);
    PhasedPaid(pool, cfg, w.vtx);
    var value := w.nFees;
    if nHeight == 1 && prevIsGenesis {
      value := value + if testnet then 10000000 * Coins.COIN else Coins.MAX_MONEY;
    }
    t := Template(w.vtx, value, value == 0);
    assert forall x :: x in pool ==> x in pool.Keys;
    if Roomy(pool, cfg, byScore) && Independent(pool) {
      OrderMeans(pool, cfg, byScore, w);
    }
    if nMaxBlockSize < U32 && Respected(nMaxBlockSize) {
      OutcomeWithinLimit(settings, nMaxBlockSize, pool, t.vtx);
    }
  }
}
