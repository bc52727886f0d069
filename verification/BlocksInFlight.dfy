/**
 Blocks requested from peers: one global index and a queue per peer, with counters that are kept
 up to date at every request, receipt, arrival and departure.
 */
module BlocksInFlight {
  import opened Basics
  import opened Sums

  type NodeId = nat
  type Hash = nat

  /** A requested block; whether its header was known to be valid at that time. */
  datatype QueuedBlock = QueuedBlock(hash: Hash, fValidatedHeaders: bool)

  datatype NodeState = NodeState(vBlocksInFlight: seq<QueuedBlock>, nBlocksInFlight: int, nBlocksInFlightValidHeaders: int,
                                 nDownloadingSince: int, nStallingSince: int, fPreferredDownload: bool)

  type Nodes = map<NodeId, NodeState>

  const NewNode: NodeState := NodeState([], 0, 0, 0, 0, false)

  // --- one queue -------------------------------------------------------------------------------

  function One(b: bool): int { if b then 1 else 0 }

  predicate Lists(v: seq<QueuedBlock>, h: Hash) { exists i :: 0 <= i < |v| && v[i].hash == h }

  predicate NoHashTwice(v: seq<QueuedBlock>) { forall i, j :: 0 <= i < j < |v| ==> v[i].hash != v[j].hash }

  function Validated(v: seq<QueuedBlock>): (n: nat) {
    if v == [] then 0 else Validated(v[..|v| - 1]) + One(v[|v| - 1].fValidatedHeaders)
  }

  lemma {:induction false} ValidatedConcat(a: seq<QueuedBlock>, b: seq<QueuedBlock>)
    ensures Validated(a + b) == Validated(a) + Validated(b)
    decreases |b|
  {
    if b == [] {
      assert a + b == a;
    } else {
      assert (a + b)[..|a + b| - 1] == a + b[..|b| - 1];
      ValidatedConcat(a, b[..|b| - 1]);
    }
  }

  lemma ValidatedAppend(v: seq<QueuedBlock>, q: QueuedBlock)
    ensures Validated(v + [q]) == Validated(v) + One(q.fValidatedHeaders)
  {
    assert (v + [q])[..|v|] == v;
  }

  lemma ValidatedWithout(v: seq<QueuedBlock>, i: nat)
    requires i < |v|
    ensures Validated(Without(v, i)) == Validated(v) - One(v[i].fValidatedHeaders)
  {
    hide Validated;
    var front, back := v[..i], v[i + 1..];
    ValidatedConcat(front, back);
    assert v == (front + [v[i]]) + back;
    ValidatedConcat(front + [v[i]], back);
    ValidatedAppend(front, v[i]);
  }

  lemma WithoutAt(v: seq<QueuedBlock>, i: nat, k: nat)
    requires i < |v| && k < |v| - 1
    ensures Without(v, i)[k] == if k < i then v[k] else v[k + 1]
  {
  }

  lemma WithoutLists(v: seq<QueuedBlock>, i: nat, h: Hash)
    requires i < |v| && NoHashTwice(v)
    ensures Lists(Without(v, i), h) <==> Lists(v, h) && h != v[i].hash
  {
    hide Without;
    var w := Without(v, i);
    assert |w| == |v| - 1 by {
      WithoutLength(v, i);
    }
    if Lists(w, h) {
      var k :| 0 <= k < |w| && w[k].hash == h;
      WithoutAt(v, i, k);
    }
    if Lists(v, h) && h != v[i].hash {
      var k :| 0 <= k < |v| && v[k].hash == h;
      WithoutAt(v, i, if k < i then k else k - 1);
    }
  }

  lemma WithoutLength(v: seq<QueuedBlock>, i: nat)
    requires i < |v|
    ensures |Without(v, i)| == |v| - 1
  {
  }

  /** Taking one block out of a queue. */
  lemma WithoutRight(v: seq<QueuedBlock>, i: nat)
    requires i < |v| && NoHashTwice(v)
    ensures NoHashTwice(Without(v, i)) && |Without(v, i)| == |v| - 1
    ensures Validated(Without(v, i)) == Validated(v) - One(v[i].fValidatedHeaders)
    ensures forall h :: Lists(Without(v, i), h) <==> Lists(v, h) && h != v[i].hash
  {
    hide Without, Validated, Lists;
    var w := Without(v, i);
    WithoutLength(v, i);
    ValidatedWithout(v, i);
    forall j, k | 0 <= j < k < |w|
      ensures w[j].hash != w[k].hash
    {
      WithoutAt(v, i, j);
      WithoutAt(v, i, k);
    }
    forall h
      ensures Lists(w, h) <==> Lists(v, h) && h != v[i].hash
    {
      WithoutLists(v, i, h);
    }
  }

  // --- everything together ----------------------------------------------------------------------

  /** A peer's own counters. */
  predicate NodeExact(s: NodeState) {
    && NoHashTwice(s.vBlocksInFlight) && s.nBlocksInFlight == |s.vBlocksInFlight|
    && s.nBlocksInFlightValidHeaders == Validated(s.vBlocksInFlight)
  }

  /** The index and the queues say the same. */
  ghost predicate Bijection(nodes: Nodes, inFlight: map<Hash, NodeId>) {
    && (forall h :: h in inFlight ==> inFlight[h] in nodes && Lists(nodes[inFlight[h]].vBlocksInFlight, h))
    && (forall n, h :: n in nodes && Lists(nodes[n].vBlocksInFlight, h) ==> h in inFlight && inFlight[h] == n)
  }

  ghost function DownloadMap(nodes: Nodes): map<NodeId, int> { map n | n in nodes :: One(nodes[n].nBlocksInFlightValidHeaders != 0) }
  ghost function PreferredMap(nodes: Nodes): map<NodeId, int> { map n | n in nodes :: One(nodes[n].fPreferredDownload) }

  /** Peers with validated blocks in flight, and preferred peers. */
  ghost function Downloading(nodes: Nodes): int { Sum(DownloadMap(nodes)) }
  ghost function Preferred(nodes: Nodes): int { Sum(PreferredMap(nodes)) }

  lemma CountsUpdate(nodes: Nodes, n: NodeId, s: NodeState)
    requires n in nodes
    ensures Downloading(nodes[n := s])
         == Downloading(nodes) - One(nodes[n].nBlocksInFlightValidHeaders != 0) + One(s.nBlocksInFlightValidHeaders != 0)
    ensures Preferred(nodes[n := s]) == Preferred(nodes) - One(nodes[n].fPreferredDownload) + One(s.fPreferredDownload)
  {
    assert DownloadMap(nodes[n := s]) == DownloadMap(nodes)[n := One(s.nBlocksInFlightValidHeaders != 0)];
    assert PreferredMap(nodes[n := s]) == PreferredMap(nodes)[n := One(s.fPreferredDownload)];
    SumUpdate(DownloadMap(nodes), n, One(s.nBlocksInFlightValidHeaders != 0));
    SumUpdate(PreferredMap(nodes), n, One(s.fPreferredDownload));
  }

  lemma CountsAdd(nodes: Nodes, n: NodeId, s: NodeState)
    requires n !in nodes
    ensures Downloading(nodes[n := s]) == Downloading(nodes) + One(s.nBlocksInFlightValidHeaders != 0)
    ensures Preferred(nodes[n := s]) == Preferred(nodes) + One(s.fPreferredDownload)
  {
    assert DownloadMap(nodes[n := s]) == DownloadMap(nodes)[n := One(s.nBlocksInFlightValidHeaders != 0)];
    assert PreferredMap(nodes[n := s]) == PreferredMap(nodes)[n := One(s.fPreferredDownload)];
    SumUpdate(DownloadMap(nodes), n, One(s.nBlocksInFlightValidHeaders != 0));
    SumUpdate(PreferredMap(nodes), n, One(s.fPreferredDownload));
  }

  lemma CountsRemove(nodes: Nodes, n: NodeId)
    requires n in nodes
    ensures Downloading(nodes - {n}) == Downloading(nodes) - One(nodes[n].nBlocksInFlightValidHeaders != 0)
    ensures Preferred(nodes - {n}) == Preferred(nodes) - One(nodes[n].fPreferredDownload)
  {
    assert DownloadMap(nodes - {n}) == DownloadMap(nodes) - {n};
    assert PreferredMap(nodes - {n}) == PreferredMap(nodes) - {n};
    SumRemove(DownloadMap(nodes), n);
    SumRemove(PreferredMap(nodes), n);
  }

  /** All bookkeeping is exact. */
  ghost predicate Exact(nodes: Nodes, inFlight: map<Hash, NodeId>, nPeers: int, nPreferred: int) {
    && (forall n :: n in nodes ==> NodeExact(nodes[n])) && Bijection(nodes, inFlight)
    && nPeers == Downloading(nodes) && nPreferred == Preferred(nodes)
  }

  /** The block with a hash stood at a place of a peer's queue, and was received. */
  ghost predicate ReceivedAt(nodes: Nodes, n: NodeId, i: nat, hash: Hash, now: int, nodes': Nodes) {
    && n in nodes && i < |nodes[n].vBlocksInFlight| && nodes[n].vBlocksInFlight[i].hash == hash
    && nodes' == nodes[n := Received(nodes[n], i, now)]
  }

  /** The peers after a block was received, whether it was requested or not. */
  ghost predicate AfterReceipt(nodes: Nodes, inFlight: map<Hash, NodeId>, hash: Hash, now: int, nodes': Nodes) {
    if hash in inFlight then exists i :: ReceivedAt(nodes, inFlight[hash], i, hash, now, nodes') else nodes' == nodes
  }

  /** The block at a place of a peer's queue is received. */
  function Received(s: NodeState, i: nat, now: int): NodeState
    requires i < |s.vBlocksInFlight|
  {
    s.(nBlocksInFlightValidHeaders := s.nBlocksInFlightValidHeaders - One(s.vBlocksInFlight[i].fValidatedHeaders),
       nDownloadingSince := if i == 0 && s.nDownloadingSince < now then now else s.nDownloadingSince,
       vBlocksInFlight := Without(s.vBlocksInFlight, i), nBlocksInFlight := s.nBlocksInFlight - 1, nStallingSince := 0)
  }

  lemma ListsAt(v: seq<QueuedBlock>, i: nat)
    requires i < |v|
    ensures Lists(v, v[i].hash)
  {
  }

  lemma ListedBy(nodes: Nodes, inFlight: map<Hash, NodeId>, n: NodeId, h: Hash)
    requires Bijection(nodes, inFlight) && n in nodes && Lists(nodes[n].vBlocksInFlight, h)
    ensures h in inFlight && inFlight[h] == n
  {
  }

  lemma ReceivedBijection(nodes: Nodes, inFlight: map<Hash, NodeId>, n: NodeId, i: nat, s: NodeState)
    requires Bijection(nodes, inFlight) && n in nodes && i < |nodes[n].vBlocksInFlight| && NoHashTwice(nodes[n].vBlocksInFlight)
    requires s.vBlocksInFlight == Without(nodes[n].vBlocksInFlight, i)
    ensures Bijection(nodes[n := s], inFlight - {nodes[n].vBlocksInFlight[i].hash})
  {
    hide Lists, Without, NoHashTwice;
    var v := nodes[n].vBlocksInFlight;
    WithoutRight(v, i);
    ListsAt(v, i);
    var nodes', inFlight' := nodes[n := s], inFlight - {v[i].hash};
    forall m, h | m in nodes' && Lists(nodes'[m].vBlocksInFlight, h)
      ensures h in inFlight' && inFlight'[h] == m
    {
      ListedBy(nodes, inFlight, n, v[i].hash);
      ListedBy(nodes, inFlight, m, h);
      assert h != v[i].hash;
    }
    forall h | h in inFlight'
      ensures inFlight'[h] in nodes' && Lists(nodes'[inFlight'[h]].vBlocksInFlight, h)
    {
      var m := inFlight[h];
      assert m in nodes;
    }
  }

  /** Receiving a block keeps everything exact. */
  lemma ReceiveKeeps(nodes: Nodes, inFlight: map<Hash, NodeId>, nPeers: int, nPreferred: int, n: NodeId, i: nat, now: int)
    requires Exact(nodes, inFlight, nPeers, nPreferred) && n in nodes && i < |nodes[n].vBlocksInFlight|
    ensures var q, s := nodes[n].vBlocksInFlight[i], Received(nodes[n], i, now);
            Exact(nodes[n := s], inFlight - {q.hash},
                  nPeers - One(s.nBlocksInFlightValidHeaders == 0 && q.fValidatedHeaders), nPreferred)
  {
    var v := nodes[n].vBlocksInFlight;
    var s := Received(nodes[n], i, now);
    WithoutRight(v, i);
    ReceivedBijection(nodes, inFlight, n, i, s);
    hide Bijection, Validated, Lists, Without, NoHashTwice, Downloading, Preferred;
    CountsUpdate(nodes, n, s);
  }

  /** A block is requested from a peer. */
  function Requested(s: NodeState, q: QueuedBlock, now: int): NodeState {
    s.(vBlocksInFlight := s.vBlocksInFlight + [q], nBlocksInFlight := s.nBlocksInFlight + 1,
       nBlocksInFlightValidHeaders := s.nBlocksInFlightValidHeaders + One(q.fValidatedHeaders),
       nDownloadingSince := if s.nBlocksInFlight + 1 == 1 then now else s.nDownloadingSince)
  }

  lemma AppendLists(v: seq<QueuedBlock>, q: QueuedBlock, h: Hash)
    ensures Lists(v + [q], h) <==> Lists(v, h) || h == q.hash
  {
    var w := v + [q];
    assert w[|v|] == q;
    if Lists(v, h) {
      var k :| 0 <= k < |v| && v[k].hash == h;
      assert w[k].hash == h;
    }
  }

  lemma RequestedBijection(nodes: Nodes, inFlight: map<Hash, NodeId>, n: NodeId, q: QueuedBlock, s: NodeState)
    requires Bijection(nodes, inFlight) && n in nodes && q.hash !in inFlight && s.vBlocksInFlight == nodes[n].vBlocksInFlight + [q]
    ensures Bijection(nodes[n := s], inFlight[q.hash := n]) && !Lists(nodes[n].vBlocksInFlight, q.hash)
  {
    hide Lists;
    var nodes', inFlight' := nodes[n := s], inFlight[q.hash := n];
    forall h
      ensures Lists(s.vBlocksInFlight, h) <==> Lists(nodes[n].vBlocksInFlight, h) || h == q.hash
    {
      AppendLists(nodes[n].vBlocksInFlight, q, h);
    }
    forall h | h in inFlight'
      ensures inFlight'[h] in nodes' && Lists(nodes'[inFlight'[h]].vBlocksInFlight, h)
    {
      if h != q.hash {
        var m := inFlight[h];
        assert m in nodes;
      }
    }
  }

  lemma AppendNoRepeats(v: seq<QueuedBlock>, q: QueuedBlock)
    requires NoHashTwice(v) && !Lists(v, q.hash)
    ensures NoHashTwice(v + [q])
  {
  }

  /** Requesting a block that is not in flight keeps everything exact. */
  lemma RequestKeeps(nodes: Nodes, inFlight: map<Hash, NodeId>, nPeers: int, nPreferred: int, n: NodeId, q: QueuedBlock, now: int)
    requires Exact(nodes, inFlight, nPeers, nPreferred) && n in nodes && q.hash !in inFlight
    ensures var s := Requested(nodes[n], q, now);
            Exact(nodes[n := s], inFlight[q.hash := n],
                  nPeers + One(s.nBlocksInFlightValidHeaders == 1 && q.fValidatedHeaders), nPreferred)
  {
    var s := Requested(nodes[n], q, now);
    RequestedBijection(nodes, inFlight, n, q, s);
    AppendNoRepeats(nodes[n].vBlocksInFlight, q);
    ValidatedAppend(nodes[n].vBlocksInFlight, q);
    hide Bijection, Validated, Lists, NoHashTwice, Downloading, Preferred;
    CountsUpdate(nodes, n, s);
  }

  lemma ArriveKeeps(nodes: Nodes, inFlight: map<Hash, NodeId>, nPeers: int, nPreferred: int, n: NodeId)
    requires Exact(nodes, inFlight, nPeers, nPreferred) && n !in nodes
    ensures Exact(nodes[n := NewNode], inFlight, nPeers, nPreferred)
  {
    hide Downloading, Preferred, Bijection;
    CountsAdd(nodes, n, NewNode);
    EmptyQueue(nodes, inFlight, n);
  }

  lemma EmptyQueue(nodes: Nodes, inFlight: map<Hash, NodeId>, n: NodeId)
    requires Bijection(nodes, inFlight) && n !in nodes
    ensures Bijection(nodes[n := NewNode], inFlight)
  {
    assert forall h :: !Lists(NewNode.vBlocksInFlight, h);
    hide Lists;
    forall h | h in inFlight
      ensures inFlight[h] in nodes[n := NewNode] && Lists(nodes[n := NewNode][inFlight[h]].vBlocksInFlight, h)
    {
      var m := inFlight[h];
      assert m in nodes;
    }
  }

  lemma PreferKeeps(nodes: Nodes, inFlight: map<Hash, NodeId>, nPeers: int, nPreferred: int, n: NodeId, f: bool)
    requires Exact(nodes, inFlight, nPeers, nPreferred) && n in nodes
    ensures Exact(nodes[n := nodes[n].(fPreferredDownload := f)], inFlight, nPeers,
                  nPreferred - One(nodes[n].fPreferredDownload) + One(f))
  {
    hide Downloading, Preferred, Bijection, NodeExact;
    var s := nodes[n].(fPreferredDownload := f);
    CountsUpdate(nodes, n, s);
    SameQueues(nodes, inFlight, n, s);
    SameCounts(nodes[n], f);
  }

  lemma SameCounts(s: NodeState, f: bool)
    requires NodeExact(s)
    ensures NodeExact(s.(fPreferredDownload := f))
  {
  }

  lemma SameQueues(nodes: Nodes, inFlight: map<Hash, NodeId>, n: NodeId, s: NodeState)
    requires Bijection(nodes, inFlight) && n in nodes && s.vBlocksInFlight == nodes[n].vBlocksInFlight
    ensures Bijection(nodes[n := s], inFlight)
  {
    hide Lists;
    forall h | h in inFlight
      ensures inFlight[h] in nodes[n := s] && Lists(nodes[n := s][inFlight[h]].vBlocksInFlight, h)
    {
      var m := inFlight[h];
      assert m in nodes;
    }
  }

  ghost function Hashes(v: seq<QueuedBlock>): set<Hash> { set i | 0 <= i < |v| :: v[i].hash }

  /** A peer leaves with its whole queue. */
  lemma LeaveKeeps(nodes: Nodes, inFlight: map<Hash, NodeId>, nPeers: int, nPreferred: int, n: NodeId)
    requires Exact(nodes, inFlight, nPeers, nPreferred) && n in nodes
    ensures Exact(nodes - {n}, inFlight - Hashes(nodes[n].vBlocksInFlight),
                  nPeers - One(nodes[n].nBlocksInFlightValidHeaders != 0), nPreferred - One(nodes[n].fPreferredDownload))
  {
    CountsRemove(nodes, n);
    hide Downloading, Preferred, Validated;
    var v := nodes[n].vBlocksInFlight;
    var nodes', inFlight' := nodes - {n}, inFlight - Hashes(v);
    forall h | h in inFlight'
      ensures inFlight'[h] in nodes' && Lists(nodes'[inFlight'[h]].vBlocksInFlight, h)
    {
      var m := inFlight[h];
      assert m in nodes && Lists(nodes[m].vBlocksInFlight, h);
      assert m != n;
    }
    forall m, h | m in nodes' && Lists(nodes'[m].vBlocksInFlight, h)
      ensures h in inFlight' && inFlight'[h] == m
    {
      assert h in inFlight && inFlight[h] == m;
    }
  }

  lemma InFlightListed(nodes: Nodes, inFlight: map<Hash, NodeId>, nPeers: int, nPreferred: int, h: Hash)
    requires Exact(nodes, inFlight, nPeers, nPreferred) && h in inFlight
    ensures inFlight[h] in nodes && Lists(nodes[inFlight[h]].vBlocksInFlight, h)
  {
  }

  /** The counters are never negative, and without peers there is nothing in flight and nothing counted. */
  lemma ExactConsequences(nodes: Nodes, inFlight: map<Hash, NodeId>, nPeers: int, nPreferred: int)
    requires Exact(nodes, inFlight, nPeers, nPreferred)
    ensures nPeers >= 0 && nPreferred >= 0
    ensures nodes == map[] ==> inFlight == map[] && nPeers == 0 && nPreferred == 0
  {
    SumNonNegative(DownloadMap(nodes));
    SumNonNegative(PreferredMap(nodes));
    if nodes == map[] {
      assert DownloadMap(nodes) == map[] && PreferredMap(nodes) == map[];
      assert inFlight.Keys == {};
    }
  }

  // --- since when a peer's first block is awaited -----------------------------------------------

  /** What happens to the queue of one peer, and when. */
  datatype Event = Request(q: QueuedBlock, now: int) | Receive(i: nat, now: int)

  function Next(s: NodeState, e: Event): NodeState {
    match e
    case Request(q, now) => Requested(s, q, now)
    case Receive(i, now) => if i < |s.vBlocksInFlight| then Received(s, i, now) else s
  }

  function Play(events: seq<Event>): NodeState {
    if events == [] then NewNode else Next(Play(events[..|events| - 1]), events[|events| - 1])
  }

  predicate Possible(s: NodeState, e: Event) {
    match e
    case Request(q, _) => !Lists(s.vBlocksInFlight, q.hash)
    case Receive(i, _) => i < |s.vBlocksInFlight|
  }

  /** Each event is possible when it happens, and the clock does not go back. */
  predicate Legal(events: seq<Event>) {
    events == [] ||
    var init, last := events[..|events| - 1], events[|events| - 1];
    Legal(init) && Possible(Play(init), last) && LastTime(init) <= last.now
  }

  function LastTime(events: seq<Event>): int { if events == [] then 0 else events[|events| - 1].now }

  /** When the queue got the first entry that it has now. */
  ghost function FirstSince(events: seq<Event>): int {
    if events == [] then 0 else
    var init, last := events[..|events| - 1], events[|events| - 1];
    var before, after := Play(init).vBlocksInFlight, Play(events).vBlocksInFlight;
    if after != [] && (before == [] || before[0] != after[0]) then last.now else FirstSince(init)
  }

  lemma NextExact(s: NodeState, e: Event)
    requires NodeExact(s) && Possible(s, e)
    ensures NodeExact(Next(s, e))
  {
    match e
    case Request(q, now) =>
      AppendNoRepeats(s.vBlocksInFlight, q);
      ValidatedAppend(s.vBlocksInFlight, q);
    case Receive(i, now) =>
      WithoutRight(s.vBlocksInFlight, i);
  }

  /** Whatever was requested and received, in any order, the recorded time is the one when the first entry of the queue
      became the first. */
  lemma {:induction false} DownloadingSinceFirst(events: seq<Event>)
    requires Legal(events)
    ensures NodeExact(Play(events)) && Play(events).nDownloadingSince <= LastTime(events)
    ensures Play(events).vBlocksInFlight != [] ==> Play(events).nDownloadingSince == FirstSince(events)
    decreases |events|
  {
    if events != [] {
      var init, last := events[..|events| - 1], events[|events| - 1];
      DownloadingSinceFirst(init);
      NextExact(Play(init), last);
    }
  }

  /** The download bookkeeping of a node. */
  class Downloads {
    var mapNodeState: Nodes
    var mapBlocksInFlight: map<Hash, NodeId>  // which peer's queue a block is in
    var nPeersWithValidatedDownloads: int
    var nPreferredDownload: int

    ghost predicate Valid()
      reads this
    {
      Exact(mapNodeState, mapBlocksInFlight, nPeersWithValidatedDownloads, nPreferredDownload)
    }

    constructor ()
      ensures Valid() && mapNodeState == map[] && mapBlocksInFlight == map[]
    {
      mapNodeState, mapBlocksInFlight, nPeersWithValidatedDownloads, nPreferredDownload := map[], map[], 0, 0;
      new;
      assert DownloadMap(map[]) == map[] && PreferredMap(map[]) == map[];
    }

    /** A peer arrives; a peer that is known already stays as it is. */
    method InitializeNode(nodeid: NodeId)
      requires Valid()
      modifies this
      ensures Valid() && mapBlocksInFlight == old(mapBlocksInFlight)
      ensures mapNodeState == if nodeid in old(mapNodeState) then old(mapNodeState) else old(mapNodeState)[nodeid := NewNode]
    {
      hide Exact;
      if nodeid !in mapNodeState {
        ArriveKeeps(mapNodeState, mapBlocksInFlight, nPeersWithValidatedDownloads, nPreferredDownload, nodeid);
        mapNodeState := mapNodeState[nodeid := NewNode];
      }
    }

    method UpdatePreferredDownload(nodeid: NodeId, fPreferred: bool)
      requires Valid() && nodeid in mapNodeState
      modifies this`mapNodeState, this`nPreferredDownload
      ensures Valid() && mapNodeState == old(mapNodeState)[nodeid := old(mapNodeState)[nodeid].(fPreferredDownload := fPreferred)]
    {
      hide Exact;
      PreferKeeps(mapNodeState, mapBlocksInFlight, nPeersWithValidatedDownloads, nPreferredDownload, nodeid, fPreferred);
      nPreferredDownload := nPreferredDownload - One(mapNodeState[nodeid].fPreferredDownload);
      mapNodeState := mapNodeState[nodeid := mapNodeState[nodeid].(fPreferredDownload := fPreferred)];
      nPreferredDownload := nPreferredDownload + One(fPreferred);
    }

    /** A block arrived: it leaves the index and the queue it was in. */
    method MarkBlockAsReceived(hash: Hash, now: int) returns (requested: bool)
      requires Valid()
      modifies this
      ensures Valid() && requested == (hash in old(mapBlocksInFlight))
      ensures mapBlocksInFlight == old(mapBlocksInFlight) - {hash}
      ensures mapNodeState.Keys == old(mapNodeState).Keys
      ensures AfterReceipt(old(mapNodeState), old(mapBlocksInFlight), hash, now, mapNodeState)
    {
      hide Exact, Received;
      requested := hash in mapBlocksInFlight;
      if requested {
        var n := mapBlocksInFlight[hash];
        InFlightListed(mapNodeState, mapBlocksInFlight, nPeersWithValidatedDownloads, nPreferredDownload, hash);
        var state := mapNodeState[n];
        var i: nat :| i < |state.vBlocksInFlight| && state.vBlocksInFlight[i].hash == hash;
        ReceiveKeeps(mapNodeState, mapBlocksInFlight, nPeersWithValidatedDownloads, nPreferredDownload, n, i, now);
        var q := state.vBlocksInFlight[i];
        state := Received(state, i, now);
        if state.nBlocksInFlightValidHeaders == 0 && q.fValidatedHeaders {
          nPeersWithValidatedDownloads := nPeersWithValidatedDownloads - 1;
        }
        mapNodeState := mapNodeState[n := state];
        mapBlocksInFlight := mapBlocksInFlight - {hash};
        assert ReceivedAt(old(mapNodeState), n, i, hash, now, mapNodeState);
      } else {
        assert mapBlocksInFlight - {hash} == mapBlocksInFlight;
      }
    }

    /** A block is requested from a peer, and from no other any more. */
    method MarkBlockAsInFlight(nodeid: NodeId, hash: Hash, validatedHeaders: bool, before: int, now: int) returns (ghost mid: Nodes)
      requires Valid() && nodeid in mapNodeState
      modifies this
      ensures Valid() && mapBlocksInFlight == old(mapBlocksInFlight)[hash := nodeid]
      ensures AfterReceipt(old(mapNodeState), old(mapBlocksInFlight), hash, before, mid) && nodeid in mid
      ensures mapNodeState == mid[nodeid := Requested(mid[nodeid], QueuedBlock(hash, validatedHeaders), now)]
    {
      hide Exact, AfterReceipt;
      var requested := MarkBlockAsReceived(hash, before);
      mid := mapNodeState;
      assert nodeid in mapNodeState.Keys;
      var q := QueuedBlock(hash, validatedHeaders);
      RequestKeeps(mapNodeState, mapBlocksInFlight, nPeersWithValidatedDownloads, nPreferredDownload, nodeid, q, now);
      var state := Requested(mapNodeState[nodeid], q, now);
      if state.nBlocksInFlightValidHeaders == 1 && validatedHeaders {
        nPeersWithValidatedDownloads := nPeersWithValidatedDownloads + 1;
      }
      mapNodeState := mapNodeState[nodeid := state];
      mapBlocksInFlight := mapBlocksInFlight[hash := nodeid];
      assert mapBlocksInFlight == old(mapBlocksInFlight)[hash := nodeid];
    }

    /** A peer leaves with everything requested from it. When the last one has left, nothing is in flight and
        nothing is counted any more. */
    method FinalizeNode(nodeid: NodeId)
      requires Valid() && nodeid in mapNodeState
      modifies this
      ensures Valid() && mapNodeState == old(mapNodeState) - {nodeid} && nPeersWithValidatedDownloads >= 0
      ensures mapBlocksInFlight == old(mapBlocksInFlight) - Hashes(old(mapNodeState)[nodeid].vBlocksInFlight)
      ensures mapNodeState == map[] ==> mapBlocksInFlight == map[] && nPreferredDownload == 0 && nPeersWithValidatedDownloads == 0
    {
      hide Exact;
      LeaveKeeps(mapNodeState, mapBlocksInFlight, nPeersWithValidatedDownloads, nPreferredDownload, nodeid);
      var state := mapNodeState[nodeid];
      var v := state.vBlocksInFlight;
      for i := 0 to |v|
        invariant mapBlocksInFlight == old(mapBlocksInFlight) - Hashes(v[..i])
        invariant mapNodeState == old(mapNodeState)
        invariant nPeersWithValidatedDownloads == old(nPeersWithValidatedDownloads) && nPreferredDownload == old(nPreferredDownload)
      {
        HashesSnoc(v, i);
        mapBlocksInFlight := mapBlocksInFlight - {v[i].hash};
      }
      assert v[..|v|] == v;
      nPreferredDownload := nPreferredDownload - One(state.fPreferredDownload);
      nPeersWithValidatedDownloads := nPeersWithValidatedDownloads - One(state.nBlocksInFlightValidHeaders != 0);
      mapNodeState := mapNodeState - {nodeid};
      ExactConsequences(mapNodeState, mapBlocksInFlight, nPeersWithValidatedDownloads, nPreferredDownload);
    }
  }

  lemma HashesSnoc(v: seq<QueuedBlock>, i: nat)
    requires i < |v|
    ensures Hashes(v[..i + 1]) == Hashes(v[..i]) + {v[i].hash}
  {
    assert forall k :: 0 <= k < i ==> v[..i + 1][k] == v[..i][k];
    assert v[..i + 1][i] == v[i];
    forall h
      ensures h in Hashes(v[..i + 1]) <==> h in Hashes(v[..i]) + {v[i].hash}
    {
      if h in Hashes(v[..i]) {
        var k :| 0 <= k < i && v[..i][k].hash == h;
        assert v[..i + 1][k].hash == h;
      }
    }
  }
}
