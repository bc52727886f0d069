/**
 The address manager's tables as one value: what every operation does to them and the
 consistency that all of them keep.

 Bucket and position hashes are arbitrary functions; only their reduction modulo the table
 sizes is fixed. Clock readings and random draws are parameters.
 */
module AddrBook {
  const TRIED_BUCKET_COUNT := 256
  const NEW_BUCKET_COUNT := 1024
  const BUCKET_SIZE := 64
  const NEW_BUCKETS_PER_ADDRESS := 8
  const HORIZON_DAYS := 30
  const RETRIES := 3
  const MAX_FAILURES := 10
  const MIN_FAIL_DAYS := 7
  const DAY := 24 * 60 * 60

  type NetAddr = nat
  type Slot = (int, int)

  datatype Service = Service(ip: NetAddr, port: nat)

  /** An address as announced by a peer. */
  datatype Address = Address(service: Service, nServices: bv64, nTime: nat)

  datatype Info = Info(addr: Service, nServices: bv64, nTime: nat, source: NetAddr, nLastTry: int, nLastSuccess: int,
                       nAttempts: int, nRefCount: int, fInTried: bool, nRandomPos: int)

  /** The keyed hashes, before reduction. */
  datatype Hashes = Hashes(tried: Service -> int, fresher: (Service, NetAddr) -> int, position: (bool, int, Service) -> int)

  datatype Book = Book(hashes: Hashes, nIdCount: int, mapInfo: map<int, Info>, mapAddr: map<NetAddr, int>, vRandom: seq<int>,
                       nTried: int, nNew: int, tried: map<Slot, int>, news: map<Slot, int>)

  function TriedBucket(h: Hashes, a: Service): int { h.tried(a) % TRIED_BUCKET_COUNT }
  function NewBucket(h: Hashes, a: Service, source: NetAddr): int { h.fresher(a, source) % NEW_BUCKET_COUNT }
  function BucketPosition(h: Hashes, fNew: bool, bucket: int, a: Service): int { h.position(fNew, bucket, a) % BUCKET_SIZE }

  function TriedSlot(h: Hashes, a: Service): Slot { (TriedBucket(h, a), BucketPosition(h, false, TriedBucket(h, a), a)) }
  function NewSlot(h: Hashes, a: Service, bucket: int): Slot { (bucket, BucketPosition(h, true, bucket, a)) }

  function Max(a: int, b: int): (r: int)
    ensures r >= a && r >= b && (r == a || r == b)
  {
    if a < b then b else a
  }

  /** A time as stored: it wraps around at 32 bits. */
  function Time32(t: int): (r: nat)
    ensures r < 0x1_0000_0000 && (t - r) % 0x1_0000_0000 == 0
  {
    t % 0x1_0000_0000
  }

  predicate IsTerrible(info: Info, now: int) {
    !(info.nLastTry != 0 && info.nLastTry >= now - 60)
    && (|| info.nTime > now + 10 * 60
        || info.nTime == 0 || now - info.nTime > HORIZON_DAYS * DAY
        || (info.nLastSuccess == 0 && info.nAttempts >= RETRIES)
        || (now - info.nLastSuccess > MIN_FAIL_DAYS * DAY && info.nAttempts >= MAX_FAILURES))
  }

  /** What makes an entry fit to be shown, with the numbers written out: tried within the last minute; or seen within the
      last thirty days and not more than ten minutes ahead of the clock, with a success or fewer than three attempts, and
      a success within the last week or fewer than ten attempts. */
  predicate Fit(info: Info, now: int) {
    || (info.nLastTry != 0 && now - info.nLastTry <= 60)
    || (&& 0 < info.nTime <= now + 600 && now - info.nTime <= 2592000
        && (info.nLastSuccess != 0 || info.nAttempts < 3)
        && (now - info.nLastSuccess <= 604800 || info.nAttempts < 10))
  }

  /** Terrible entries are exactly those that are not fit. */
  lemma TerribleIff(info: Info, now: int)
    ensures IsTerrible(info, now) <==> !Fit(info, now)
  {
  }

  // --- consistency ----------------------------------------------------------------------

  /** vRandom lists every entry exactly once, and every entry knows its place. */
  predicate RandomOk(infos: map<int, Info>, vRandom: seq<int>) {
    && (forall id :: id in infos ==> 0 <= infos[id].nRandomPos < |vRandom| && vRandom[infos[id].nRandomPos] == id)
    && (forall i :: 0 <= i < |vRandom| ==> vRandom[i] in infos && infos[vRandom[i]].nRandomPos == i)
  }

  /** mapAddr is the inverse of the entries' addresses. */
  predicate AddrOk(infos: map<int, Info>, addrs: map<NetAddr, int>) {
    && (forall id :: id in infos ==> infos[id].addr.ip in addrs && addrs[infos[id].addr.ip] == id)
    && (forall a :: a in addrs ==> addrs[a] in infos && infos[addrs[a]].addr.ip == a)
  }

  predicate IdsOk(infos: map<int, Info>, nIdCount: int) { 0 <= nIdCount && forall id :: id in infos ==> 0 <= id < nIdCount }

  /** The tried table holds exactly the tried entries, each where its hashes put it. */
  predicate TriedOk(h: Hashes, infos: map<int, Info>, tried: map<Slot, int>) {
    && (forall s :: s in tried ==> tried[s] in infos && infos[tried[s]].fInTried && s == TriedSlot(h, infos[tried[s]].addr))
    && (forall id :: id in infos && infos[id].fInTried ==> (
          var s := TriedSlot(h, infos[id].addr); s in tried && tried[s] == id))
  }

  /** The new table holds only entries not tried, each where its hashes put it. */
  predicate NewOk(h: Hashes, infos: map<int, Info>, news: map<Slot, int>) {
    forall s :: s in news ==> news[s] in infos && !infos[news[s]].fInTried
                              && 0 <= s.0 < NEW_BUCKET_COUNT && s == NewSlot(h, infos[news[s]].addr, s.0)
  }

  ghost function Refs(news: map<Slot, int>, id: int): set<Slot> { set s | s in news && news[s] == id }

  /** Reference counts are exact; outside limbo a new entry has between one and eight references. */
  ghost predicate RefsOk(infos: map<int, Info>, news: map<Slot, int>, limbo: set<int>) {
    forall id :: id in infos ==> RefOk(infos[id], |Refs(news, id)|, id in limbo)
  }

  predicate RefOk(info: Info, refs: int, inLimbo: bool) {
    && info.nRefCount == refs <= NEW_BUCKETS_PER_ADDRESS
    && (info.fInTried ==> refs == 0)
    && (!info.fInTried && !inLimbo ==> refs > 0)
  }

  ghost function TriedIds(infos: map<int, Info>): set<int> { set id | id in infos && infos[id].fInTried }
  ghost function NewIds(infos: map<int, Info>): set<int> { set id | id in infos && !infos[id].fInTried }

  ghost predicate CountsOk(infos: map<int, Info>, nTried: int, nNew: int, uncounted: int) {
    nTried == |TriedIds(infos)| && nNew + uncounted == |NewIds(infos)|
  }

  /** Recorded times are not negative, and a tried entry has succeeded at some time. */
  predicate TimesOk(infos: map<int, Info>) {
    forall id :: id in infos ==> infos[id].nLastTry >= 0 && infos[id].nLastSuccess >= 0
                                 && (infos[id].fInTried ==> infos[id].nLastSuccess != 0)
  }

  /** Consistency while the entries in limbo are in no table and some new entries are not counted. */
  ghost predicate Sound(b: Book, limbo: set<int>, uncounted: int) {
    && RandomOk(b.mapInfo, b.vRandom)
    && AddrOk(b.mapInfo, b.mapAddr)
    && IdsOk(b.mapInfo, b.nIdCount)
    && TriedOk(b.hashes, b.mapInfo, b.tried)
    && NewOk(b.hashes, b.mapInfo, b.news)
    && RefsOk(b.mapInfo, b.news, limbo)
    && CountsOk(b.mapInfo, b.nTried, b.nNew, uncounted)
  }

  /** The indexes agree with each other; every operation keeps this, whatever the clock says. */
  ghost predicate Consistent(b: Book) { Sound(b, {}, 0) }

  /** The recorded times make sense as well. */
  ghost predicate Healthy(b: Book) { Consistent(b) && TimesOk(b.mapInfo) }

  // --- the operations -------------------------------------------------------------------

  function Empty(h: Hashes): (b: Book) { Book(h, 0, map[], map[], [], 0, 0, map[], map[]) }

  function NewInfo(addr: Address, source: NetAddr, pos: int): Info {
    Info(addr.service, addr.nServices, addr.nTime, source, 0, 0, 0, 0, false, pos)
  }

  function Created(b: Book, addr: Address, source: NetAddr): (r: Book) {
    b.(nIdCount := b.nIdCount + 1,
       mapInfo := b.mapInfo[b.nIdCount := NewInfo(addr, source, |b.vRandom|)],
       mapAddr := b.mapAddr[addr.service.ip := b.nIdCount],
       vRandom := b.vRandom + [b.nIdCount])
  }

  function SetInfo(b: Book, id: int, info: Info): (r: Book) { b.(mapInfo := b.mapInfo[id := info]) }

  function Placed(m: map<int, Info>, id: int, pos: int): (r: map<int, Info>)
    requires id in m
    ensures r.Keys == m.Keys
  {
    m[id := m[id].(nRandomPos := pos)]
  }

  function Swapped(b: Book, i: int, j: int): (r: Book)
    requires 0 <= i < |b.vRandom| && 0 <= j < |b.vRandom| && b.vRandom[i] in b.mapInfo && b.vRandom[j] in b.mapInfo
  {
    if i == j then b
    else
      var id1, id2 := b.vRandom[i], b.vRandom[j];
      b.(mapInfo := Placed(Placed(b.mapInfo, id1, j), id2, i), vRandom := b.vRandom[i := id2][j := id1])
  }

  /** What an entry at the back of vRandom, in no table, leaves behind. */
  function Dropped(b: Book, id: int): (r: Book)
    requires id in b.mapInfo && |b.vRandom| > 0
  {
    b.(vRandom := b.vRandom[..|b.vRandom| - 1], mapAddr := b.mapAddr - {b.mapInfo[id].addr.ip}, mapInfo := b.mapInfo - {id},
       nNew := b.nNew - 1)
  }

  /** Forget an entry: move it to the back of vRandom and drop it everywhere. */
  function Deleted(b: Book, id: int): (r: Book)
    requires id in b.mapInfo && RandomOk(b.mapInfo, b.vRandom)
    ensures r.hashes == b.hashes && r.tried == b.tried && r.news == b.news && r.mapInfo.Keys == b.mapInfo.Keys - {id}
  {
    Dropped(Swapped(b, b.mapInfo[id].nRandomPos, |b.vRandom| - 1), id)
  }

  /** Take the reference in a slot of the new table away. */
  function Unreferenced(b: Book, s: Slot): (r: Book)
    requires s in b.news && b.news[s] in b.mapInfo
  {
    var id := b.news[s];
    b.(news := b.news - {s}, mapInfo := b.mapInfo[id := b.mapInfo[id].(nRefCount := b.mapInfo[id].nRefCount - 1)])
  }

  /** Clear a slot of the new table; an entry that loses its last reference is forgotten. */
  function Cleared(b: Book, s: Slot): (r: Book)
    requires s in b.news ==> b.news[s] in b.mapInfo
    requires RandomOk(b.mapInfo, b.vRandom)
    ensures r.hashes == b.hashes && r.tried == b.tried && r.news == b.news - {s}
  {
    if s !in b.news then b
    else
      var u := Unreferenced(b, s);
      if u.mapInfo[b.news[s]].nRefCount == 0 then Deleted(u, b.news[s]) else u
  }

  /** Enter a reference to an entry into a free slot of the new table. */
  function Referenced(b: Book, id: int, s: Slot): (r: Book)
    requires id in b.mapInfo
  {
    b.(news := b.news[s := id], mapInfo := b.mapInfo[id := b.mapInfo[id].(nRefCount := b.mapInfo[id].nRefCount + 1)])
  }

  /** Drop every reference to an entry from the new table, and stop counting it. */
  ghost function Withdrawn(b: Book, id: int): (r: Book)
    requires id in b.mapInfo
  {
    b.(news := b.news - Refs(b.news, id),
       mapInfo := b.mapInfo[id := b.mapInfo[id].(nRefCount := 0)], nNew := b.nNew - 1)
  }

  /** Send a tried entry back, taking it out of the tried table. */
  function Demoted(b: Book, s: Slot): (r: Book)
    requires s in b.tried && b.tried[s] in b.mapInfo
  {
    var id := b.tried[s];
    b.(tried := b.tried - {s}, nTried := b.nTried - 1, mapInfo := b.mapInfo[id := b.mapInfo[id].(fInTried := false)])
  }

  /** Enter an entry into a free slot of the tried table. */
  function Promoted(b: Book, id: int, s: Slot): (r: Book)
    requires id in b.mapInfo
  {
    b.(tried := b.tried[s := id], nTried := b.nTried + 1, mapInfo := b.mapInfo[id := b.mapInfo[id].(fInTried := true)])
  }

  // --- every part of consistency under every kind of change -------------------------------

  /** The same entries with the same addresses in the same kind of table. */
  ghost predicate SameShape(m: map<int, Info>, m': map<int, Info>) {
    m.Keys == m'.Keys && forall id :: id in m ==> m'[id].addr == m[id].addr && m'[id].fInTried == m[id].fInTried
  }

  lemma ShapeKeeps(b: Book, m: map<int, Info>, uncounted: int)
    requires SameShape(b.mapInfo, m) && AddrOk(b.mapInfo, b.mapAddr) && IdsOk(b.mapInfo, b.nIdCount)
    requires TriedOk(b.hashes, b.mapInfo, b.tried) && NewOk(b.hashes, b.mapInfo, b.news)
    requires CountsOk(b.mapInfo, b.nTried, b.nNew, uncounted)
    ensures AddrOk(m, b.mapAddr) && IdsOk(m, b.nIdCount) && TriedOk(b.hashes, m, b.tried) && NewOk(b.hashes, m, b.news)
    ensures CountsOk(m, b.nTried, b.nNew, uncounted)
  {
    forall id
      ensures id in TriedIds(m) <==> id in TriedIds(b.mapInfo)
      ensures id in NewIds(m) <==> id in NewIds(b.mapInfo)
    {
    }
    assert TriedIds(m) == TriedIds(b.mapInfo) && NewIds(m) == NewIds(b.mapInfo);
    forall a | a in b.mapAddr
      ensures b.mapAddr[a] in m && m[b.mapAddr[a]].addr.ip == a
    {
      var id := b.mapAddr[a];
      assert id in m;
    }
    forall s | s in b.tried
      ensures b.tried[s] in m && m[b.tried[s]].fInTried && s == TriedSlot(b.hashes, m[b.tried[s]].addr)
    {
      var id := b.tried[s];
      assert id in m;
    }
    forall s | s in b.news
      ensures b.news[s] in m && !m[b.news[s]].fInTried && s == NewSlot(b.hashes, m[b.news[s]].addr, s.0)
    {
      var id := b.news[s];
      assert id in m;
    }
  }

  lemma PlacesKeep(m: map<int, Info>, m': map<int, Info>, v: seq<int>)
    requires RandomOk(m, v) && m'.Keys == m.Keys && forall id :: id in m ==> m'[id].nRandomPos == m[id].nRandomPos
    ensures RandomOk(m', v)
  {
    forall i | 0 <= i < |v|
      ensures v[i] in m' && m'[v[i]].nRandomPos == i
    {
      var id := v[i];
      assert id in m;
    }
  }

  lemma RefsKeep(m: map<int, Info>, m': map<int, Info>, news: map<Slot, int>, limbo: set<int>)
    requires RefsOk(m, news, limbo) && SameShape(m, m') && forall id :: id in m ==> m'[id].nRefCount == m[id].nRefCount
    ensures RefsOk(m', news, limbo)
  {
    hide Refs;
  }

  /** Changing an entry's times, services or attempts keeps everything. */
  lemma TouchKeeps(b: Book, id: int, info: Info, limbo: set<int>, uncounted: int)
    requires Sound(b, limbo, uncounted) && id in b.mapInfo
    requires info.addr == b.mapInfo[id].addr && info.fInTried == b.mapInfo[id].fInTried
    requires info.nRefCount == b.mapInfo[id].nRefCount && info.nRandomPos == b.mapInfo[id].nRandomPos
    ensures Sound(SetInfo(b, id, info), limbo, uncounted)
  {
    hide AddrOk, IdsOk, TriedOk, NewOk, CountsOk, RefsOk, RandomOk;
    var m := b.mapInfo[id := info];
    assert m.Keys == b.mapInfo.Keys;
    ShapeKeeps(b, m, uncounted);
    PlacesKeep(b.mapInfo, m, b.vRandom);
    RefsKeep(b.mapInfo, m, b.news, limbo);
  }

  predicate OnlyMoved(m: map<int, Info>, m': map<int, Info>) {
    m.Keys == m'.Keys && forall id :: id in m ==> m'[id] == m[id].(nRandomPos := m'[id].nRandomPos)
  }

  lemma PlacedMoves(m: map<int, Info>, id: int, pos: int)
    requires id in m
    ensures OnlyMoved(m, Placed(m, id, pos))
  {
  }

  lemma MovesCompose(m: map<int, Info>, m': map<int, Info>, m'': map<int, Info>)
    requires OnlyMoved(m, m') && OnlyMoved(m', m'')
    ensures OnlyMoved(m, m'')
  {
  }

  /** Entries that only changed places, with vRandom to match, keep everything. */
  lemma MoveKeeps(b: Book, m: map<int, Info>, v: seq<int>, limbo: set<int>, uncounted: int)
    requires Sound(b, limbo, uncounted) && OnlyMoved(b.mapInfo, m) && RandomOk(m, v)
    ensures Sound(b.(mapInfo := m, vRandom := v), limbo, uncounted)
    ensures SameShape(b.mapInfo, m)
  {
    hide AddrOk, IdsOk, TriedOk, NewOk, CountsOk, RefsOk, RandomOk;
    ShapeKeeps(b, m, uncounted);
    RefsKeep(b.mapInfo, m, b.news, limbo);
  }

  /** Swapping two places of vRandom keeps everything. */
  lemma SwapKeeps(b: Book, i: int, j: int, limbo: set<int>, uncounted: int)
    requires Sound(b, limbo, uncounted) && 0 <= i < |b.vRandom| && 0 <= j < |b.vRandom|
    ensures Sound(Swapped(b, i, j), limbo, uncounted)
    ensures OnlyMoved(b.mapInfo, Swapped(b, i, j).mapInfo)
  {
    if i != j {
      var id1, id2 := b.vRandom[i], b.vRandom[j];
      SwapRandomOk(b.mapInfo, b.vRandom, i, j);
      var m := Placed(b.mapInfo, id1, j);
      PlacedMoves(b.mapInfo, id1, j);
      PlacedMoves(m, id2, i);
      hide OnlyMoved, Placed, Sound, RandomOk;
      MovesCompose(b.mapInfo, m, Placed(m, id2, i));
      MoveKeeps(b, Placed(m, id2, i), b.vRandom[i := id2][j := id1], limbo, uncounted);
    }
  }

  lemma SwapRandomOk(m: map<int, Info>, v: seq<int>, i: int, j: int)
    requires RandomOk(m, v) && 0 <= i < |v| && 0 <= j < |v| && i != j
    ensures RandomOk(Placed(Placed(m, v[i], j), v[j], i), v[i := v[j]][j := v[i]])
  {
    var m', v' := Placed(Placed(m, v[i], j), v[j], i), v[i := v[j]][j := v[i]];
    assert v[i] != v[j];
    forall k | 0 <= k < |v'|
      ensures v'[k] in m' && m'[v'[k]].nRandomPos == k
    {
      if k != i && k != j {
        assert v'[k] == v[k] && v[k] != v[i] && v[k] != v[j];
      }
    }
  }

  // --- changes that concern one entry -----------------------------------------------------

  /** The two agree on every entry but one. */
  predicate AgreeBut(m: map<int, Info>, m': map<int, Info>, id: int) {
    && (forall k :: k in m && k != id ==> k in m' && m'[k] == m[k])
    && (forall k :: k in m' && k != id ==> k in m)
  }

  lemma NewElsewhere(h: Hashes, m: map<int, Info>, m': map<int, Info>, news: map<Slot, int>, id: int)
    requires NewOk(h, m, news) && AgreeBut(m, m', id) && forall s :: s in news ==> news[s] != id
    ensures NewOk(h, m', news)
  {
    hide NewSlot;
    forall s | s in news
      ensures news[s] in m' && !m'[news[s]].fInTried && s == NewSlot(h, m'[news[s]].addr, s.0)
    {
      var k := news[s];
      assert k in m && k != id;
    }
  }

  /** The tried table after one entry entered it, left it, or had nothing to do with it. */
  lemma TriedElsewhere(h: Hashes, m: map<int, Info>, m': map<int, Info>, tried: map<Slot, int>, tried': map<Slot, int>, id: int)
    requires TriedOk(h, m, tried) && AgreeBut(m, m', id)
    requires forall s :: s in tried' && tried'[s] != id ==> s in tried && tried[s] == tried'[s]
    requires forall s :: s in tried && tried[s] != id ==> s in tried' && tried'[s] == tried[s]
    requires forall s :: s in tried' && tried'[s] == id ==> id in m' && m'[id].fInTried && s == TriedSlot(h, m'[id].addr)
    requires id in m' && m'[id].fInTried ==> (var s := TriedSlot(h, m'[id].addr); s in tried' && tried'[s] == id)
    ensures TriedOk(h, m', tried')
  {
    hide TriedSlot;
    forall s | s in tried'
      ensures tried'[s] in m' && m'[tried'[s]].fInTried && s == TriedSlot(h, m'[tried'[s]].addr)
    {
      var k := tried'[s];
      if k != id {
        assert k in m && s in tried;
      }
    }
  }

  lemma RefsElsewhere(m: map<int, Info>, m': map<int, Info>, news: map<Slot, int>, id: int, limbo: set<int>, limbo': set<int>)
    requires RefsOk(m, news, limbo) && AgreeBut(m, m', id) && id in m' && RefOk(m'[id], |Refs(news, id)|, id in limbo')
    requires limbo + {id} == limbo' + {id}
    ensures RefsOk(m', news, limbo')
  {
    hide Refs, RefOk;
    forall k | k in m'
      ensures RefOk(m'[k], |Refs(news, k)|, k in limbo')
    {
      if k != id {
        assert k in m && m'[k] == m[k];
        assert k in limbo' <==> k in limbo' + {id};
        assert k in limbo <==> k in limbo + {id};
      }
    }
  }

  function TriedCount(m: map<int, Info>, id: int): int { if id in m && m[id].fInTried then 1 else 0 }
  function NewCount(m: map<int, Info>, id: int): int { if id in m && !m[id].fInTried then 1 else 0 }

  lemma CountsElsewhere(m: map<int, Info>, m': map<int, Info>, nTried: int, nNew: int, uncounted: int, id: int)
    requires CountsOk(m, nTried, nNew, uncounted) && AgreeBut(m, m', id)
    ensures CountsOk(m', nTried - TriedCount(m, id) + TriedCount(m', id), nNew, uncounted - NewCount(m, id) + NewCount(m', id))
  {
    SameBut(TriedIds(m), TriedIds(m'), id);
    SameBut(NewIds(m), NewIds(m'), id);
  }

  lemma SameBut(a: set<int>, b: set<int>, id: int)
    requires forall k :: k != id ==> (k in a <==> k in b)
    ensures |b| == |a| - (if id in a then 1 else 0) + (if id in b then 1 else 0)
  {
    var c := a - {id};
    forall k
      ensures k in b - {id} <==> k in c
    {
    }
    assert b - {id} == c;
    assert a == if id in a then c + {id} else c;
    assert b == if id in b then c + {id} else c;
  }

  /** No slot of a sound new table names a tried entry or one that is not there. */
  lemma NotInNew(h: Hashes, m: map<int, Info>, news: map<Slot, int>, id: int)
    requires NewOk(h, m, news) && (id in m ==> m[id].fInTried)
    ensures forall s :: s in news ==> news[s] != id
    ensures Refs(news, id) == {}
  {
    forall s | s in news
      ensures news[s] != id
    {
      var k := news[s];
      assert k in m && !m[k].fInTried;
    }
  }

  /** No slot of a sound tried table names an entry not tried or one that is not there. */
  lemma NotInTried(h: Hashes, m: map<int, Info>, tried: map<Slot, int>, id: int)
    requires TriedOk(h, m, tried) && (id in m ==> !m[id].fInTried)
    ensures forall s :: s in tried ==> tried[s] != id
  {
    forall s | s in tried
      ensures tried[s] != id
    {
      var k := tried[s];
      assert k in m && m[k].fInTried;
    }
  }

  // --- forgetting an entry ---------------------------------------------------------------

  lemma DropRandom(m: map<int, Info>, v: seq<int>, id: int)
    requires RandomOk(m, v) && id in m && m[id].nRandomPos == |v| - 1
    ensures RandomOk(m - {id}, v[..|v| - 1])
  {
    var m', v' := m - {id}, v[..|v| - 1];
    forall i | 0 <= i < |v'|
      ensures v'[i] in m' && m'[v'[i]].nRandomPos == i
    {
      assert v'[i] == v[i] && v[i] != id;
    }
    forall k | k in m'
      ensures 0 <= m'[k].nRandomPos < |v'| && v'[m'[k].nRandomPos] == k
    {
      assert k in m && v[m[k].nRandomPos] == k;
    }
  }

  lemma DropAddr(m: map<int, Info>, addrs: map<NetAddr, int>, id: int)
    requires AddrOk(m, addrs) && id in m
    ensures AddrOk(m - {id}, addrs - {m[id].addr.ip})
  {
    var m', a' := m - {id}, addrs - {m[id].addr.ip};
    forall a | a in a'
      ensures a'[a] in m' && m'[a'[a]].addr.ip == a
    {
      var k := addrs[a];
      assert k in m && k != id;
    }
    forall k | k in m'
      ensures m'[k].addr.ip in a' && a'[m'[k].addr.ip] == k
    {
      assert k in m && k != id;
    }
  }

  /** Without references, no slot of the new table names the entry. */
  lemma NoRefs(news: map<Slot, int>, id: int)
    requires |Refs(news, id)| == 0
    ensures forall s :: s in news ==> news[s] != id
  {
    forall s | s in news
      ensures news[s] != id
    {
      assert s !in Refs(news, id);
    }
  }

  lemma DropRefs(m: map<int, Info>, news: map<Slot, int>, id: int, limbo: set<int>)
    requires RefsOk(m, news, limbo) && id in m && m[id].nRefCount == 0
    ensures RefsOk(m - {id}, news, limbo - {id}) && forall s :: s in news ==> news[s] != id
  {
    hide Refs;
    NoRefs(news, id);
  }

  lemma DropKeeps(b: Book, id: int, limbo: set<int>, uncounted: int)
    requires Sound(b, limbo, uncounted) && id in b.mapInfo && b.mapInfo[id].nRandomPos == |b.vRandom| - 1
    requires !b.mapInfo[id].fInTried && b.mapInfo[id].nRefCount == 0
    ensures Sound(Dropped(b, id), limbo - {id}, uncounted)
  {
    hide RandomOk, AddrOk, TriedOk, NewOk, RefsOk, TriedIds, NewIds;
    DropRefs(b.mapInfo, b.news, id, limbo);
    DropRandom(b.mapInfo, b.vRandom, id);
    DropAddr(b.mapInfo, b.mapAddr, id);
    NotInTried(b.hashes, b.mapInfo, b.tried, id);
    TriedElsewhere(b.hashes, b.mapInfo, b.mapInfo - {id}, b.tried, b.tried, id);
    NewElsewhere(b.hashes, b.mapInfo, b.mapInfo - {id}, b.news, id);
    CountsElsewhere(b.mapInfo, b.mapInfo - {id}, b.nTried, b.nNew, uncounted, id);
  }

  lemma PlaceKnown(m: map<int, Info>, v: seq<int>, id: int)
    requires RandomOk(m, v) && id in m
    ensures 0 <= m[id].nRandomPos < |v| && v[m[id].nRandomPos] == id && v[|v| - 1] in m
  {
  }

  lemma SwapToBack(b: Book, id: int)
    requires RandomOk(b.mapInfo, b.vRandom) && id in b.mapInfo
    ensures |b.vRandom| > 0
    ensures var s := Swapped(b, b.mapInfo[id].nRandomPos, |b.vRandom| - 1);
            |s.vRandom| == |b.vRandom| && id in s.mapInfo && s.mapInfo[id] == b.mapInfo[id].(nRandomPos := |b.vRandom| - 1)
  {
  }

  /** Forgetting an entry that is in no table keeps everything; only that entry goes. */
  lemma DeleteKeeps(b: Book, id: int, limbo: set<int>, uncounted: int)
    requires Sound(b, limbo, uncounted) && id in b.mapInfo && !b.mapInfo[id].fInTried && b.mapInfo[id].nRefCount == 0
    ensures Sound(Deleted(b, id), limbo - {id}, uncounted)
    ensures OnlyMoved(b.mapInfo - {id}, Deleted(b, id).mapInfo)
  {
    var pos, last := b.mapInfo[id].nRandomPos, |b.vRandom| - 1;
    SwapToBack(b, id);
    hide Placed;
    SwapKeeps(b, pos, last, limbo, uncounted);
    DropKeeps(Swapped(b, pos, last), id, limbo, uncounted);
    hide Sound, Swapped;
  }

  // --- references in the new table ----------------------------------------------------------

  lemma UnrefRefs(m: map<int, Info>, news: map<Slot, int>, s: Slot, limbo: set<int>)
    requires RefsOk(m, news, limbo) && s in news && news[s] in m
    ensures var id := news[s];
            var m' := m[id := m[id].(nRefCount := m[id].nRefCount - 1)];
            && RefsOk(m', news - {s}, limbo + {id})
            && (m'[id].nRefCount > 0 ==> RefsOk(m', news - {s}, limbo))
  {
    var id := news[s];
    assert s in Refs(news, id) && Refs(news - {s}, id) == Refs(news, id) - {s};
    forall k | k in m && k != id
      ensures Refs(news - {s}, k) == Refs(news, k)
    {
    }
    hide Refs;
  }

  /** All but the references, for one entry with another reference count. */
  lemma RecountKeeps(b: Book, id: int, n: int, limbo: set<int>, uncounted: int)
    requires Sound(b, limbo, uncounted) && id in b.mapInfo
    ensures var m := b.mapInfo[id := b.mapInfo[id].(nRefCount := n)];
            && m.Keys == b.mapInfo.Keys && RandomOk(m, b.vRandom) && AddrOk(m, b.mapAddr) && IdsOk(m, b.nIdCount)
            && TriedOk(b.hashes, m, b.tried) && NewOk(b.hashes, m, b.news) && CountsOk(m, b.nTried, b.nNew, uncounted)
  {
    hide AddrOk, IdsOk, TriedOk, NewOk, CountsOk, RefsOk, RandomOk;
    var m := b.mapInfo[id := b.mapInfo[id].(nRefCount := n)];
    assert m.Keys == b.mapInfo.Keys;
    ShapeKeeps(b, m, uncounted);
    PlacesKeep(b.mapInfo, m, b.vRandom);
  }

  lemma UnrefKeeps(b: Book, s: Slot, limbo: set<int>, uncounted: int)
    requires Sound(b, limbo, uncounted) && s in b.news
    ensures var u := Unreferenced(b, s);
            && u.mapInfo.Keys == b.mapInfo.Keys
            && Sound(u, limbo + {b.news[s]}, uncounted)
            && (u.mapInfo[b.news[s]].nRefCount > 0 ==> Sound(u, limbo, uncounted))
  {
    var id := b.news[s];
    assert id in b.mapInfo;
    var m := b.mapInfo[id := b.mapInfo[id].(nRefCount := b.mapInfo[id].nRefCount - 1)];
    UnrefRefs(b.mapInfo, b.news, s, limbo);
    hide AddrOk, IdsOk, TriedOk, NewOk, CountsOk, RefsOk, RandomOk;
    RecountKeeps(b, id, b.mapInfo[id].nRefCount - 1, limbo, uncounted);
    FewerNews(b.hashes, m, b.news, b.news - {s});
  }

  lemma FewerNews(h: Hashes, m: map<int, Info>, news: map<Slot, int>, news': map<Slot, int>)
    requires NewOk(h, m, news) && forall s :: s in news' ==> s in news && news'[s] == news[s]
    ensures NewOk(h, m, news')
  {
  }

  lemma LimboShrinks(b: Book, limbo: set<int>, limbo': set<int>, uncounted: int)
    requires Sound(b, limbo, uncounted) && forall id :: id in b.mapInfo && id in limbo ==> id in limbo'
    ensures Sound(b, limbo', uncounted)
  {
    hide Refs, AddrOk, IdsOk, TriedOk, NewOk, CountsOk, RandomOk;
  }

  /** Every entry but one is still there, changed at most in its place. */
  predicate Spares(m: map<int, Info>, m': map<int, Info>, id: int) {
    forall k :: k in m && k != id ==> k in m' && m'[k] == m[k].(nRandomPos := m'[k].nRandomPos)
  }

  /** An entry has one reference less, and is gone if it had no other. */
  predicate LosesRef(m: map<int, Info>, m': map<int, Info>, id: int) {
    && id in m && !m[id].fInTried && m[id].nRefCount > 0
    && (id in m' <==> m[id].nRefCount > 1)
    && (id in m' ==> m'[id] == m[id].(nRefCount := m[id].nRefCount - 1))
  }

  /** Clearing a slot of the new table keeps everything, and no entry but the one named there is affected. */
  lemma ClearKeeps(b: Book, s: Slot, limbo: set<int>, uncounted: int)
    requires Sound(b, limbo, uncounted) && (s in b.news ==> b.news[s] !in limbo)
    ensures var r := Cleared(b, s);
            && Sound(r, limbo, uncounted) && s !in r.news && r.mapInfo.Keys <= b.mapInfo.Keys
            && Spares(b.mapInfo, r.mapInfo, if s in b.news then b.news[s] else -1)
            && (s in b.news ==> LosesRef(b.mapInfo, r.mapInfo, b.news[s]))
  {
    hide Sound, Deleted, RandomOk;
    OccupiedSlot(b, s, limbo, uncounted);
    if s in b.news {
      var id := b.news[s];
      UnrefKeeps(b, s, limbo, uncounted);
      var u := Unreferenced(b, s);
      if u.mapInfo[id].nRefCount == 0 {
        ForgetKeeps(u, id, limbo, uncounted);
      }
    }
  }

  lemma ForgetKeeps(b: Book, id: int, limbo: set<int>, uncounted: int)
    requires Sound(b, limbo + {id}, uncounted) && id in b.mapInfo && !b.mapInfo[id].fInTried && b.mapInfo[id].nRefCount == 0
    ensures var r := Deleted(b, id);
            && Sound(r, limbo, uncounted) && r.mapInfo.Keys == b.mapInfo.Keys - {id} && Spares(b.mapInfo, r.mapInfo, id)
            && r.news == b.news && r.tried == b.tried
  {
    DeleteKeeps(b, id, limbo + {id}, uncounted);
    hide Deleted;
    var r := Deleted(b, id);
    hide Sound;
    LimboShrinks(r, limbo + {id} - {id}, limbo, uncounted);
  }

  lemma RefRefs(m: map<int, Info>, news: map<Slot, int>, s: Slot, id: int, limbo: set<int>)
    requires RefsOk(m, news, limbo) && s !in news && id in m && !m[id].fInTried && m[id].nRefCount < NEW_BUCKETS_PER_ADDRESS
    ensures RefsOk(m[id := m[id].(nRefCount := m[id].nRefCount + 1)], news[s := id], limbo - {id})
  {
    assert Refs(news[s := id], id) == Refs(news, id) + {s} && s !in Refs(news, id);
    forall k | k in m && k != id
      ensures Refs(news[s := id], k) == Refs(news, k)
    {
    }
    hide Refs;
  }

  /** Entering a reference into a free slot keeps everything and takes the entry out of limbo. */
  lemma ReferenceKeeps(b: Book, id: int, s: Slot, limbo: set<int>, uncounted: int)
    requires Sound(b, limbo, uncounted) && id in b.mapInfo && !b.mapInfo[id].fInTried && s !in b.news
    requires b.mapInfo[id].nRefCount < NEW_BUCKETS_PER_ADDRESS
    requires 0 <= s.0 < NEW_BUCKET_COUNT && s == NewSlot(b.hashes, b.mapInfo[id].addr, s.0)
    ensures Sound(Referenced(b, id, s), limbo - {id}, uncounted)
  {
    var m := b.mapInfo[id := b.mapInfo[id].(nRefCount := b.mapInfo[id].nRefCount + 1)];
    RefRefs(b.mapInfo, b.news, s, id, limbo);
    hide AddrOk, IdsOk, TriedOk, NewOk, CountsOk, RefsOk, RandomOk;
    RecountKeeps(b, id, b.mapInfo[id].nRefCount + 1, limbo, uncounted);
    MoreNews(b.hashes, m, b.news, s, id);
  }

  lemma MoreNews(h: Hashes, m: map<int, Info>, news: map<Slot, int>, s: Slot, id: int)
    requires NewOk(h, m, news) && id in m && !m[id].fInTried && 0 <= s.0 < NEW_BUCKET_COUNT && s == NewSlot(h, m[id].addr, s.0)
    ensures NewOk(h, m, news[s := id])
  {
    hide NewSlot;
  }

  lemma CountKeeps(b: Book, d: int, limbo: set<int>, uncounted: int)
    requires Sound(b, limbo, uncounted)
    ensures Sound(b.(nNew := b.nNew + d), limbo, uncounted - d)
  {
    hide AddrOk, IdsOk, TriedOk, NewOk, RefsOk, RandomOk;
  }

  // --- a new entry ----------------------------------------------------------------------------

  lemma CreateRandom(m: map<int, Info>, v: seq<int>, id: int, info: Info)
    requires RandomOk(m, v) && id !in m && info.nRandomPos == |v|
    ensures RandomOk(m[id := info], v + [id])
  {
    var m', v' := m[id := info], v + [id];
    forall i | 0 <= i < |v'|
      ensures v'[i] in m' && m'[v'[i]].nRandomPos == i
    {
      if i < |v| {
        assert v'[i] == v[i] && v[i] != id;
      }
    }
  }

  lemma CreateTables(b: Book, id: int, info: Info, limbo: set<int>, uncounted: int)
    requires Sound(b, limbo, uncounted) && id !in b.mapInfo && !info.fInTried && info.nRefCount == 0
    ensures var m := b.mapInfo[id := info];
            && TriedOk(b.hashes, m, b.tried) && NewOk(b.hashes, m, b.news) && RefsOk(m, b.news, limbo + {id})
            && CountsOk(m, b.nTried, b.nNew, uncounted + 1)
  {
    var m := b.mapInfo[id := info];
    CountsElsewhere(b.mapInfo, m, b.nTried, b.nNew, uncounted, id);
    NotInNew(b.hashes, b.mapInfo, b.news, id);
    NotInTried(b.hashes, b.mapInfo, b.tried, id);
    hide Refs, RandomOk, AddrOk, IdsOk, TriedOk, NewOk, RefsOk;
    TriedElsewhere(b.hashes, b.mapInfo, m, b.tried, b.tried, id);
    NewElsewhere(b.hashes, b.mapInfo, m, b.news, id);
    RefsElsewhere(b.mapInfo, m, b.news, id, limbo, limbo + {id});
  }

  lemma CreateAddr(m: map<int, Info>, addrs: map<NetAddr, int>, id: int, info: Info)
    requires AddrOk(m, addrs) && id !in m && info.addr.ip !in addrs
    ensures AddrOk(m[id := info], addrs[info.addr.ip := id])
  {
    var m', a' := m[id := info], addrs[info.addr.ip := id];
    forall a | a in a'
      ensures a'[a] in m' && m'[a'[a]].addr.ip == a
    {
      if a != info.addr.ip {
        var k := addrs[a];
        assert k in m && k != id;
      }
    }
  }

  /** A new entry starts in limbo, uncounted. */
  lemma CreateKeeps(b: Book, addr: Address, source: NetAddr)
    requires Consistent(b) && addr.service.ip !in b.mapAddr
    ensures b.nIdCount !in b.mapInfo && Sound(Created(b, addr, source), {b.nIdCount}, 1)
  {
    var id, info := b.nIdCount, NewInfo(addr, source, |b.vRandom|);
    CreateRandom(b.mapInfo, b.vRandom, id, info);
    CreateAddr(b.mapInfo, b.mapAddr, id, info);
    CreateTables(b, id, info, {}, 0);
    assert {} + {id} == {id};
    hide AddrOk, TriedOk, NewOk, CountsOk, RefsOk, RandomOk;
  }

  // --- moving to the tried table -----------------------------------------------------------------

  lemma WithdrawRefs(m: map<int, Info>, news: map<Slot, int>, id: int)
    requires RefsOk(m, news, {}) && id in m
    ensures RefsOk(m[id := m[id].(nRefCount := 0)], news - Refs(news, id), {id})
  {
    var news' := news - Refs(news, id);
    assert Refs(news', id) == {};
    forall k | k in m && k != id
      ensures Refs(news', k) == Refs(news, k)
    {
    }
    hide Refs;
  }

  lemma WithdrawKeeps(b: Book, id: int)
    requires Consistent(b) && id in b.mapInfo
    ensures Sound(Withdrawn(b, id), {id}, 1)
  {
    WithdrawRefs(b.mapInfo, b.news, id);
    RecountKeeps(b, id, 0, {}, 0);
    var m := b.mapInfo[id := b.mapInfo[id].(nRefCount := 0)];
    FewerNews(b.hashes, m, b.news, Withdrawn(b, id).news);
    hide AddrOk, TriedOk, NewOk, RefsOk, RandomOk;
  }

  /** All that does not depend on which table an entry is in. */
  lemma RetableKeeps(b: Book, id: int, tried: bool, limbo: set<int>, uncounted: int)
    requires Sound(b, limbo, uncounted) && id in b.mapInfo
    ensures var m := b.mapInfo[id := b.mapInfo[id].(fInTried := tried)];
            && m.Keys == b.mapInfo.Keys && RandomOk(m, b.vRandom) && AddrOk(m, b.mapAddr) && IdsOk(m, b.nIdCount)
  {
    hide AddrOk, TriedOk, NewOk, CountsOk, RefsOk, RandomOk;
    var m := b.mapInfo[id := b.mapInfo[id].(fInTried := tried)];
    assert m.Keys == b.mapInfo.Keys;
    PlacesKeep(b.mapInfo, m, b.vRandom);
    AddrsKeep(b.mapInfo, m, b.mapAddr);
  }

  lemma AddrsKeep(m: map<int, Info>, m': map<int, Info>, addrs: map<NetAddr, int>)
    requires AddrOk(m, addrs) && m'.Keys == m.Keys && forall id :: id in m ==> m'[id].addr == m[id].addr
    ensures AddrOk(m', addrs)
  {
    forall a | a in addrs
      ensures addrs[a] in m' && m'[addrs[a]].addr.ip == a
    {
      var id := addrs[a];
      assert id in m;
    }
  }

  lemma DemoteTables(b: Book, s: Slot, limbo: set<int>, uncounted: int)
    requires Sound(b, limbo, uncounted) && s in b.tried
    ensures var id := b.tried[s];
            var m := b.mapInfo[id := b.mapInfo[id].(fInTried := false)];
            && TriedOk(b.hashes, m, b.tried - {s}) && NewOk(b.hashes, m, b.news) && RefsOk(m, b.news, limbo + {id})
            && CountsOk(m, b.nTried - 1, b.nNew, uncounted + 1)
  {
    var id := b.tried[s];
    assert id in b.mapInfo && b.mapInfo[id].fInTried;
    var m := b.mapInfo[id := b.mapInfo[id].(fInTried := false)];
    CountsElsewhere(b.mapInfo, m, b.nTried, b.nNew, uncounted, id);
    NotInNew(b.hashes, b.mapInfo, b.news, id);
    assert forall t :: t in b.tried && b.tried[t] == id ==> t == s;
    assert RefOk(b.mapInfo[id], |Refs(b.news, id)|, id in limbo);
    hide Refs, RandomOk, AddrOk, IdsOk, TriedOk, NewOk, RefsOk;
    TriedElsewhere(b.hashes, b.mapInfo, m, b.tried, b.tried - {s}, id);
    NewElsewhere(b.hashes, b.mapInfo, m, b.news, id);
    RefsElsewhere(b.mapInfo, m, b.news, id, limbo, limbo + {id});
  }

  lemma DemoteKeeps(b: Book, s: Slot, limbo: set<int>, uncounted: int)
    requires Sound(b, limbo, uncounted) && s in b.tried
    ensures b.tried[s] in b.mapInfo && b.mapInfo[b.tried[s]].fInTried && b.mapInfo[b.tried[s]].nRefCount == 0
    ensures Sound(Demoted(b, s), limbo + {b.tried[s]}, uncounted + 1)
  {
    var id := b.tried[s];
    assert id in b.mapInfo;
    DemoteTables(b, s, limbo, uncounted);
    RetableKeeps(b, id, false, limbo, uncounted);
    hide AddrOk, NewOk, CountsOk, RandomOk, Refs;
  }

  lemma PromoteTables(b: Book, id: int, s: Slot, limbo: set<int>, uncounted: int)
    requires Sound(b, limbo, uncounted) && id in b.mapInfo && !b.mapInfo[id].fInTried && b.mapInfo[id].nRefCount == 0
    requires s !in b.tried && s == TriedSlot(b.hashes, b.mapInfo[id].addr)
    ensures var m := b.mapInfo[id := b.mapInfo[id].(fInTried := true)];
            && TriedOk(b.hashes, m, b.tried[s := id]) && NewOk(b.hashes, m, b.news) && RefsOk(m, b.news, limbo - {id})
            && CountsOk(m, b.nTried + 1, b.nNew, uncounted - 1)
  {
    var m := b.mapInfo[id := b.mapInfo[id].(fInTried := true)];
    CountsElsewhere(b.mapInfo, m, b.nTried, b.nNew, uncounted, id);
    assert RefOk(b.mapInfo[id], |Refs(b.news, id)|, id in limbo);
    NoRefs(b.news, id);
    NotInTried(b.hashes, b.mapInfo, b.tried, id);
    hide Refs, RandomOk, AddrOk, IdsOk, TriedOk, NewOk, RefsOk;
    TriedElsewhere(b.hashes, b.mapInfo, m, b.tried, b.tried[s := id], id);
    NewElsewhere(b.hashes, b.mapInfo, m, b.news, id);
    RefsElsewhere(b.mapInfo, m, b.news, id, limbo, limbo - {id});
  }

  lemma PromoteKeeps(b: Book, id: int, s: Slot, limbo: set<int>, uncounted: int)
    requires Sound(b, limbo, uncounted) && id in b.mapInfo && !b.mapInfo[id].fInTried && b.mapInfo[id].nRefCount == 0
    requires s !in b.tried && s == TriedSlot(b.hashes, b.mapInfo[id].addr)
    ensures Sound(Promoted(b, id, s), limbo - {id}, uncounted - 1)
  {
    PromoteTables(b, id, s, limbo, uncounted);
    RetableKeeps(b, id, true, limbo, uncounted);
    hide AddrOk, TriedOk, NewOk, CountsOk, RefsOk, RandomOk;
  }

  /** The slot of the new table that an entry evicted from the tried table goes to. */
  function HomeSlot(h: Hashes, info: Info): (s: Slot)
    ensures 0 <= s.0 < NEW_BUCKET_COUNT && 0 <= s.1 < BUCKET_SIZE && s == NewSlot(h, info.addr, s.0)
  {
    NewSlot(h, info.addr, NewBucket(h, info.addr, info.source))
  }

  /** If the slot is taken, the entry there is not tried and has references. */
  predicate Clearable(b: Book, s: Slot) {
    s in b.news ==> b.news[s] in b.mapInfo && !b.mapInfo[b.news[s]].fInTried && b.mapInfo[b.news[s]].nRefCount > 0
  }

  /** An occupied slot of the new table names an entry with references. */
  lemma OccupiedSlot(b: Book, s: Slot, limbo: set<int>, uncounted: int)
    requires Sound(b, limbo, uncounted)
    ensures Clearable(b, s)
  {
    if s in b.news {
      var id := b.news[s];
      assert id in b.mapInfo && s in Refs(b.news, id);
    }
  }

  /** Entries that agree on everything but their place and what the tables say about them. */
  predicate SameRecord(i: Info, j: Info) {
    j == i.(nRandomPos := j.nRandomPos, nRefCount := j.nRefCount, fInTried := j.fInTried)
  }

  /** Entries keep their records and, but for the named ones, their table. At most one entry is gone: the
      given one, which was not tried and had a single reference. */
  predicate Rearranged(m: map<int, Info>, m': map<int, Info>, moved: set<int>, gone: int) {
    && (forall k :: k in m' ==> k in m && SameRecord(m[k], m'[k]) && (k !in moved ==> m'[k].fInTried == m[k].fInTried))
    && (forall k :: k in m && k !in m' ==> k == gone && !m[k].fInTried && m[k].nRefCount == 1)
  }

  lemma ClearRearranges(m: map<int, Info>, m': map<int, Info>, taken: bool, id: int)
    requires m'.Keys <= m.Keys && Spares(m, m', id) && (if taken then LosesRef(m, m', id) else id !in m)
    ensures Rearranged(m, m', {}, id)
  {
    forall k | k in m'
      ensures k in m && SameRecord(m[k], m'[k]) && m'[k].fInTried == m[k].fInTried
    {
      assert k in m'.Keys;
    }
  }

  /** What is needed to send the entry in a tried slot back to the new table. */
  ghost predicate Evictable(b: Book, s: Slot) {
    && s in b.tried && b.tried[s] in b.mapInfo && RandomOk(b.mapInfo, b.vRandom)
    && forall t :: t in b.news ==> b.news[t] in b.mapInfo && b.news[t] != b.tried[s]
  }

  /** The entry in a tried slot is out of it, and its place in the new table is free. */
  ghost function Displaced(b: Book, s: Slot): (r: Book)
    requires Evictable(b, s)
    ensures r.hashes == b.hashes && r.tried == b.tried - {s}
  {
    PlacesKeep(b.mapInfo, Demoted(b, s).mapInfo, b.vRandom);
    Cleared(Demoted(b, s), HomeSlot(b.hashes, b.mapInfo[b.tried[s]]))
  }

  /** The entry in a tried slot made room: it is in the new table again. */
  ghost function Evicted(b: Book, s: Slot): (r: Book)
    requires Evictable(b, s)
    ensures r.hashes == b.hashes
  {
    var r := Referenced(Displaced(b, s), b.tried[s], HomeSlot(b.hashes, b.mapInfo[b.tried[s]]));
    r.(nNew := r.nNew + 1)
  }

  /** The slot an evicted entry goes to may be taken, but not by the evicted entry nor by one in limbo. */
  lemma HomeTaken(b: Book, s: Slot, id: int)
    requires Sound(b, {id}, 1) && s in b.tried && id in b.mapInfo && b.mapInfo[id].nRefCount == 0
    ensures b.tried[s] in b.mapInfo && b.mapInfo[b.tried[s]].fInTried && b.mapInfo[b.tried[s]].nRefCount == 0
    ensures forall t :: t in b.news ==> b.news[t] in b.mapInfo && b.news[t] != b.tried[s] && b.news[t] != id
  {
    var out := b.tried[s];
    assert out in b.mapInfo && b.mapInfo[out].fInTried;
    forall t | t in b.news
      ensures b.news[t] in b.mapInfo && b.news[t] != out && b.news[t] != id
    {
      OccupiedSlot(b, t, {id}, 1);
    }
  }

  /** What the slot an evicted entry goes to named before. */
  function HomeHolder(b: Book, s: Slot): int
    requires s in b.tried && b.tried[s] in b.mapInfo
  {
    var home := HomeSlot(b.hashes, b.mapInfo[b.tried[s]]);
    if home in b.news then b.news[home] else -1
  }

  lemma DisplaceKeeps(b: Book, s: Slot, id: int)
    requires Sound(b, {id}, 1) && Evictable(b, s) && forall t :: t in b.news ==> b.news[t] != id
    ensures var d, out := Displaced(b, s), b.tried[s];
            && Sound(d, {id, out}, 2) && HomeSlot(b.hashes, b.mapInfo[out]) !in d.news
            && out in d.mapInfo && d.mapInfo[out].addr == b.mapInfo[out].addr
            && !d.mapInfo[out].fInTried && d.mapInfo[out].nRefCount == 0
            && Rearranged(Demoted(b, s).mapInfo, d.mapInfo, {}, HomeHolder(b, s))
            && (id in b.mapInfo ==> id in d.mapInfo && d.mapInfo[id].nRefCount == b.mapInfo[id].nRefCount)
  {
    var out := b.tried[s];
    DemoteKeeps(b, s, {id}, 1);
    assert {id} + {out} == {id, out};
    ClearKeeps(Demoted(b, s), HomeSlot(b.hashes, b.mapInfo[out]), {id, out}, 2);
    assert -1 !in b.mapInfo;
    hide Sound, HomeSlot, Cleared;
    ClearRearranges(Demoted(b, s).mapInfo, Displaced(b, s).mapInfo, HomeHolder(b, s) != -1, HomeHolder(b, s));
    hide LosesRef;
  }

  /** What clearing the way for an evicted entry relies on. */
  lemma DemotedReady(b: Book, s: Slot, id: int)
    requires Sound(b, {id}, 1) && s in b.tried && id in b.mapInfo && b.mapInfo[id].nRefCount == 0
    ensures Evictable(b, s) && (forall t :: t in b.news ==> b.news[t] != id) && b.tried[s] >= 0
    ensures RandomOk(Demoted(b, s).mapInfo, b.vRandom)
    ensures Clearable(Demoted(b, s), HomeSlot(b.hashes, b.mapInfo[b.tried[s]]))
  {
    HomeTaken(b, s, id);
    DemoteKeeps(b, s, {id}, 1);
    var d, home := Demoted(b, s), HomeSlot(b.hashes, b.mapInfo[b.tried[s]]);
    hide HomeSlot;
    OccupiedSlot(d, home, {id} + {b.tried[s]}, 2);
  }

  /** Making room in the tried table keeps everything. */
  lemma EvictKeeps(b: Book, s: Slot, id: int)
    requires Sound(b, {id}, 1) && Evictable(b, s) && (forall t :: t in b.news ==> b.news[t] != id) && id != b.tried[s]
    ensures Sound(Evicted(b, s), {id}, 1) && Evicted(b, s).tried == b.tried - {s}
  {
    hide Sound, Displaced, HomeSlot, RandomOk, Rearranged, HomeHolder;
    var out := b.tried[s];
    DisplaceKeeps(b, s, id);
    var home := HomeSlot(b.hashes, b.mapInfo[out]);
    ReferenceKeeps(Displaced(b, s), out, home, {id, out}, 2);
    assert {id, out} - {out} == {id};
    CountKeeps(Referenced(Displaced(b, s), out, home), 1, {id}, 2);
  }

  lemma RearrangeAround(m: map<int, Info>, m': map<int, Info>, out: int, n: int, gone: int)
    requires out in m && out in m' && Rearranged(m[out := m[out].(fInTried := false)], m', {}, gone)
    ensures Rearranged(m, m'[out := m'[out].(nRefCount := n)], {out}, gone)
  {
    var m1 := m[out := m[out].(fInTried := false)];
    forall k | k in m && k !in m'
      ensures k == gone && !m[k].fInTried && m[k].nRefCount == 1
    {
      assert k in m1 && m1[k] == m[k];
    }
  }

  /** Making room concerns the evicted entry, and possibly costs the entry in its way its last reference. */
  lemma EvictRearranges(b: Book, s: Slot, id: int)
    requires Sound(b, {id}, 1) && Evictable(b, s) && (forall t :: t in b.news ==> b.news[t] != id) && id != b.tried[s]
    ensures Rearranged(b.mapInfo, Evicted(b, s).mapInfo, {b.tried[s]}, HomeHolder(b, s))
    ensures id in b.mapInfo ==> id in Evicted(b, s).mapInfo && Evicted(b, s).mapInfo[id].nRefCount == b.mapInfo[id].nRefCount
  {
    hide Sound, HomeSlot, Displaced, HomeHolder, Rearranged, RandomOk;
    DisplaceKeeps(b, s, id);
    var out := b.tried[s];
    var d := Displaced(b, s);
    RearrangeAround(b.mapInfo, d.mapInfo, out, d.mapInfo[out].nRefCount + 1, HomeHolder(b, s));
  }

  /** Entries keep their records and, but for the named ones, their table; at most one is gone. */
  ghost predicate Reshuffled(m: map<int, Info>, m': map<int, Info>, moved: set<int>) {
    exists gone :: Rearranged(m, m', moved, gone)
  }

  lemma RearrangeNothing(m: map<int, Info>)
    ensures Rearranged(m, m, {}, -1)
  {
  }

  lemma RearrangeInto(m: map<int, Info>, m': map<int, Info>, id: int, moved: set<int>, gone: int)
    requires id in m && id in m' && Rearranged(m[id := m[id].(nRefCount := 0)], m', moved, gone)
    ensures Rearranged(m, m'[id := m'[id].(fInTried := true)], moved + {id}, gone)
  {
    var m1 := m[id := m[id].(nRefCount := 0)];
    forall k | k in m && k !in m'
      ensures k == gone && !m[k].fInTried && m[k].nRefCount == 1
    {
      assert k in m1 && m1[k] == m[k];
    }
  }

  /** The entry that is about to be tried, once it is withdrawn from the new table. */
  lemma WithdrawnReady(b: Book, id: int)
    requires Consistent(b) && id in b.mapInfo && !b.mapInfo[id].fInTried
    ensures Sound(Withdrawn(b, id), {id}, 1) && id >= 0 && id in Withdrawn(b, id).mapInfo
    ensures Withdrawn(b, id).mapInfo[id] == b.mapInfo[id].(nRefCount := 0)
    ensures forall s :: s in b.tried ==> b.tried[s] in b.mapInfo
  {
    WithdrawKeeps(b, id);
    hide RandomOk, AddrOk, NewOk, RefsOk, CountsOk, Refs;
  }

  /** The tables once an entry's slot in the tried table is free. */
  ghost function MadeRoom(b: Book, s: Slot): (r: Book)
    requires s in b.tried ==> Evictable(b, s)
  {
    if s in b.tried then Evicted(b, s) else b
  }

  /** Who has to leave a slot of the tried table. */
  function Occupant(tried: map<Slot, int>, s: Slot): set<int> { if s in tried then {tried[s]} else {} }

  /** Whose last reference that may cost. */
  function Bumped(b: Book, s: Slot): int
    requires s in b.tried ==> b.tried[s] in b.mapInfo
  {
    if s in b.tried then HomeHolder(b, s) else -1
  }

  /** Room was made for an entry: its slot is free and everything else is consistent. */
  ghost predicate RoomMade(b: Book, r: Book, s: Slot, id: int)
    requires id in b.mapInfo && (s in b.tried ==> b.tried[s] in b.mapInfo)
  {
    && Sound(r, {id}, 1) && s !in r.tried && id in r.mapInfo && SameRecord(b.mapInfo[id], r.mapInfo[id])
    && !r.mapInfo[id].fInTried && r.mapInfo[id].nRefCount == 0 && r.hashes == b.hashes
    && Rearranged(b.mapInfo, r.mapInfo, Occupant(b.tried, s), Bumped(b, s))
  }

  lemma RoomByEviction(b: Book, s: Slot, id: int)
    requires Sound(b, {id}, 1) && id in b.mapInfo && !b.mapInfo[id].fInTried && b.mapInfo[id].nRefCount == 0 && s in b.tried
    requires Evictable(b, s) && (forall t :: t in b.news ==> b.news[t] != id) && id != b.tried[s]
    ensures RoomMade(b, MadeRoom(b, s), s, id)
  {
    hide Sound, Evicted, RandomOk, HomeHolder;
    EvictKeeps(b, s, id);
    EvictRearranges(b, s, id);
  }

  lemma MadeRoomKeeps(b: Book, s: Slot, id: int)
    requires Sound(b, {id}, 1) && id in b.mapInfo && !b.mapInfo[id].fInTried && b.mapInfo[id].nRefCount == 0
    ensures s in b.tried ==> Evictable(b, s)
    ensures RoomMade(b, MadeRoom(b, s), s, id)
  {
    if s in b.tried {
      DemotedReady(b, s, id);
      NotInTried(b.hashes, b.mapInfo, b.tried, id);
      RoomByEviction(b, s, id);
      hide Sound, RoomMade;
    } else {
      RearrangeNothing(b.mapInfo);
      hide Sound;
    }
  }

  /** Moving to the tried table, all together. */
  lemma MakeTriedKeeps(b: Book, id: int, r: Book, s: Slot)
    requires id in b.mapInfo && s == TriedSlot(b.hashes, b.mapInfo[id].addr)
    requires s in b.tried ==> b.tried[s] in b.mapInfo
    requires RoomMade(Withdrawn(b, id), r, s, id)
    ensures id in r.mapInfo && Consistent(Promoted(r, id, s))
    ensures Promoted(r, id, s).mapInfo[id].fInTried && SameRecord(b.mapInfo[id], Promoted(r, id, s).mapInfo[id])
    ensures Rearranged(b.mapInfo, Promoted(r, id, s).mapInfo, Occupant(b.tried, s) + {id}, Bumped(Withdrawn(b, id), s))
  {
    hide Sound, HomeHolder, Rearranged, TriedSlot, Refs;
    PromoteKeeps(r, id, s, {id}, 1);
    assert {id} - {id} == {};
    RearrangeInto(b.mapInfo, r.mapInfo, id, Occupant(b.tried, s), Bumped(Withdrawn(b, id), s));
  }

  // --- placing an entry in the new table ------------------------------------------------------------

  /** An entry with references needs no exemption. */
  lemma LeaveLimbo(b: Book, id: int, uncounted: int)
    requires Sound(b, {id}, uncounted) && (id in b.mapInfo ==> b.mapInfo[id].nRefCount > 0)
    ensures Sound(b, {}, uncounted)
  {
    hide RandomOk, AddrOk, TriedOk, NewOk, CountsOk, Refs;
  }

  /** Whether an entry may take a slot of the new table. */
  predicate MayTake(b: Book, id: int, s: Slot, now: int)
    requires id in b.mapInfo
  {
    s !in b.news || b.news[s] !in b.mapInfo
    || IsTerrible(b.mapInfo[b.news[s]], now) || (b.mapInfo[b.news[s]].nRefCount > 1 && b.mapInfo[id].nRefCount == 0)
  }

  /** Entries keep their records and tables; apart from the one placed, only terrible entries with a single
      reference may be gone. */
  predicate Settled(m: map<int, Info>, m': map<int, Info>, id: int, now: int) {
    && (forall k :: k in m' ==> k in m && SameRecord(m[k], m'[k]) && m'[k].fInTried == m[k].fInTried)
    && (forall k :: k in m && k !in m' && k != id ==> !m[k].fInTried && m[k].nRefCount == 1 && IsTerrible(m[k], now))
  }

  lemma TakeSettles(m: map<int, Info>, m': map<int, Info>, id: int, holder: int, now: int)
    requires Rearranged(m, m', {}, holder) && id in m && id in m'
    requires holder in m && m[holder].nRefCount == 1 ==> IsTerrible(m[holder], now)
    ensures Settled(m, m'[id := m'[id].(nRefCount := m'[id].nRefCount + 1)], id, now)
  {
    hide IsTerrible;
  }

  function Holder(b: Book, s: Slot): int { if s in b.news then b.news[s] else -1 }

  /** An entry wants a slot of the new table that is not its own. */
  ghost predicate Wants(b: Book, id: int, s: Slot) {
    && Sound(b, {id}, 0) && id in b.mapInfo && !b.mapInfo[id].fInTried && b.mapInfo[id].nRefCount < NEW_BUCKETS_PER_ADDRESS
    && 0 <= s.0 < NEW_BUCKET_COUNT && s == NewSlot(b.hashes, b.mapInfo[id].addr, s.0)
    && Holder(b, s) != id
  }

  /** Clearing a slot for an entry leaves that entry alone. */
  lemma TakeReady(b: Book, id: int, s: Slot)
    requires Wants(b, id, s)
    ensures Clearable(b, s) && RandomOk(b.mapInfo, b.vRandom) && (s in b.news ==> Holder(b, s) in b.mapInfo) && id >= 0 && -1 !in b.mapInfo
    ensures var c := Cleared(b, s);
            && Sound(c, {id}, 0) && s !in c.news && c.hashes == b.hashes
            && id in c.mapInfo && c.mapInfo[id] == b.mapInfo[id].(nRandomPos := c.mapInfo[id].nRandomPos)
            && Rearranged(b.mapInfo, c.mapInfo, {}, Holder(b, s))
  {
    OccupiedSlot(b, s, {id}, 0);
    ClearKeeps(b, s, {id}, 0);
    assert -1 !in b.mapInfo;
    assert RandomOk(b.mapInfo, b.vRandom) && id >= 0;
    hide Sound, NewSlot, Cleared, RandomOk;
    ClearRearranges(b.mapInfo, Cleared(b, s).mapInfo, s in b.news, Holder(b, s));
    hide LosesRef;
  }

  /** Taking a slot of the new table, from whoever held it. */
  lemma TakeKeeps(b: Book, id: int, s: Slot, now: int)
    requires Wants(b, id, s) && MayTake(b, id, s, now)
    requires Clearable(b, s) && RandomOk(b.mapInfo, b.vRandom) && id in Cleared(b, s).mapInfo
    ensures Sound(Referenced(Cleared(b, s), id, s), {}, 0)
    ensures Settled(b.mapInfo, Referenced(Cleared(b, s), id, s).mapInfo, id, now)
  {
    hide Sound, NewSlot, IsTerrible, Cleared, RandomOk, Rearranged, Settled;
    TakeReady(b, id, s);
    TakeSettles(b.mapInfo, Cleared(b, s).mapInfo, id, Holder(b, s), now);
    ReferenceKeeps(Cleared(b, s), id, s, {id}, 0);
    assert {id} - {id} == {};
  }

  lemma LimboRefs(b: Book, id: int)
    requires Sound(b, {id}, 0) && id in b.mapInfo && !b.mapInfo[id].fInTried
    ensures RandomOk(b.mapInfo, b.vRandom) && id >= 0 && b.mapInfo[id].nRefCount >= 0
  {
    hide RandomOk;
    assert RefOk(b.mapInfo[id], |Refs(b.news, id)|, true);
  }

  /** Not getting a slot: an entry without references is forgotten again. */
  lemma LeaveKeeps(b: Book, id: int, now: int)
    requires Sound(b, {id}, 0) && id in b.mapInfo && !b.mapInfo[id].fInTried
    ensures RandomOk(b.mapInfo, b.vRandom) && id >= 0 && b.mapInfo[id].nRefCount >= 0
    ensures b.mapInfo[id].nRefCount == 0 ==> Sound(Deleted(b, id), {}, 0) && Settled(b.mapInfo, Deleted(b, id).mapInfo, id, now)
    ensures b.mapInfo[id].nRefCount != 0 ==> Sound(b, {}, 0) && Settled(b.mapInfo, b.mapInfo, id, now)
  {
    hide Sound, RandomOk, Deleted;
    LimboRefs(b, id);
    if b.mapInfo[id].nRefCount == 0 {
      assert {} + {id} == {id};
      ForgetKeeps(b, id, {}, 0);
    } else {
      LeaveLimbo(b, id, 0);
    }
  }

  /** The entry for an address with its port, or -1. */
  function Lookup(b: Book, addr: Service): (id: int)
    ensures id != -1 ==> id in b.mapInfo && b.mapInfo[id].addr == addr
  {
    if addr.ip in b.mapAddr && b.mapAddr[addr.ip] in b.mapInfo && b.mapInfo[b.mapAddr[addr.ip]].addr == addr
    then b.mapAddr[addr.ip] else -1
  }

  /** In consistent tables the lookup finds every entry. */
  lemma LookupFinds(b: Book, id: int)
    requires Consistent(b) && id in b.mapInfo
    ensures id != -1 && Lookup(b, b.mapInfo[id].addr) == id
  {
    hide RandomOk, TriedOk, NewOk, RefsOk, CountsOk;
  }

  /** Looking up an address goes through an entry. */
  lemma KnownEntry(b: Book, ip: NetAddr)
    requires Consistent(b) && ip in b.mapAddr
    ensures b.mapAddr[ip] in b.mapInfo && b.mapInfo[b.mapAddr[ip]].addr.ip == ip && b.mapAddr[ip] >= 0
  {
    hide RandomOk, TriedOk, NewOk, RefsOk, CountsOk;
    var id := b.mapAddr[ip];
    assert id in b.mapInfo;
  }

  /** A new entry is in some bucket of the new table. */
  lemma HasReference(b: Book, id: int) returns (bucket: int)
    requires Consistent(b) && id in b.mapInfo && !b.mapInfo[id].fInTried
    ensures 0 <= bucket < NEW_BUCKET_COUNT
    ensures var s := NewSlot(b.hashes, b.mapInfo[id].addr, bucket); s in b.news && b.news[s] == id
  {
    assert RefOk(b.mapInfo[id], |Refs(b.news, id)|, false);
    assert Refs(b.news, id) != {};
    var s :| s in Refs(b.news, id);
    bucket := s.0;
  }

  /** What a repeated announcement changes about an entry. */
  function Refreshed(info: Info, addr: Address, penalty: int, now: int): (r: Info)
    ensures r == info.(nTime := r.nTime, nServices := info.nServices | addr.nServices)
  {
    var interval := if now - addr.nTime < DAY then 60 * 60 else DAY;
    var time := if addr.nTime != 0 && (info.nTime == 0 || info.nTime < addr.nTime - interval - penalty)
                then Time32(Max(0, addr.nTime - penalty)) else info.nTime;
    info.(nTime := time, nServices := info.nServices | addr.nServices)
  }

  /** What that means for the time, as long as it fits into 32 bits: it never goes back, it lags behind an announcement, less
      the penalty, by at most an hour if that is less than a day old and by at most a day otherwise, and it moves by more
      than that or not at all. */
  lemma RefreshedTime(info: Info, addr: Address, penalty: int, now: int)
    requires 0 < addr.nTime < 0x1_0000_0000 && penalty >= 0 && info.nTime >= 0
    ensures var r := Refreshed(info, addr, penalty, now).nTime;
            info.nTime == 0 ==> r == if addr.nTime < penalty then 0 else addr.nTime - penalty
    ensures info.nTime > 0 ==>
            var r := Refreshed(info, addr, penalty, now).nTime;
            var lag := if now - addr.nTime < 86400 then 3600 else 86400;
            && r >= info.nTime && r >= addr.nTime - penalty - lag
            && (r != info.nTime ==> r == addr.nTime - penalty && r - info.nTime > lag)
  {
  }

  /** The entry a first announcement creates. */
  function FirstInfo(addr: Address, source: NetAddr, pos: int, penalty: int): (r: Info)
    ensures addr.nTime < penalty ==> r.nTime == 0
    ensures penalty <= addr.nTime < penalty + 0x1_0000_0000 ==> r.nTime == addr.nTime - penalty
  {
    NewInfo(addr, source, pos).(nTime := Time32(Max(0, addr.nTime - penalty)))
  }

  /** Whether a slot of the new table is open to an entry without references. */
  predicate SlotOpen(b: Book, s: Slot, now: int) {
    s !in b.news || b.news[s] !in b.mapInfo || IsTerrible(b.mapInfo[b.news[s]], now) || b.mapInfo[b.news[s]].nRefCount > 1
  }

  /** The tables with a new entry, counted but in no bucket yet. */
  function Enrolled(b: Book, addr: Address, source: NetAddr, penalty: int): (r: Book)
    ensures b.nIdCount in r.mapInfo && r.mapInfo[b.nIdCount] == FirstInfo(addr, source, |b.vRandom|, penalty)
    ensures r.mapInfo == b.mapInfo[b.nIdCount := FirstInfo(addr, source, |b.vRandom|, penalty)]
    ensures r.news == b.news && r.hashes == b.hashes
  {
    var c := Created(b, addr, source);
    SetInfo(c, b.nIdCount, FirstInfo(addr, source, |b.vRandom|, penalty)).(nNew := c.nNew + 1)
  }

  lemma EnrollKeeps(b: Book, addr: Address, source: NetAddr, penalty: int)
    requires Consistent(b) && addr.service.ip !in b.mapAddr
    ensures Sound(Enrolled(b, addr, source, penalty), {b.nIdCount}, 0) && b.nIdCount !in b.mapInfo
    ensures forall s :: s in b.news ==> b.news[s] in b.mapInfo
  {
    assert forall s :: s in b.news ==> b.news[s] in b.mapInfo;
    hide Sound;
    CreateKeeps(b, addr, source);
    var c := Created(b, addr, source);
    TouchKeeps(c, b.nIdCount, FirstInfo(addr, source, |b.vRandom|, penalty), {b.nIdCount}, 1);
    CountKeeps(SetInfo(c, b.nIdCount, FirstInfo(addr, source, |b.vRandom|, penalty)), 1, {b.nIdCount}, 1);
  }

  /** Swapping a place of vRandom with a later one leaves the places before. */
  lemma DrawKeeps(b: Book, n: int, pos: int)
    requires Consistent(b) && 0 <= n <= pos < |b.vRandom|
    ensures b.vRandom[n] in b.mapInfo && b.vRandom[pos] in b.mapInfo
    ensures var r := Swapped(b, n, pos);
            && Consistent(r) && OnlyMoved(b.mapInfo, r.mapInfo) && |r.vRandom| == |b.vRandom|
            && r.vRandom[..n] == b.vRandom[..n] && r.vRandom[n] in r.mapInfo
  {
    hide Sound, OnlyMoved;
    RandomLists(b);
    SwapKeeps(b, n, pos, {}, 0);
    SwapPlaces(b, n, pos);
  }

  lemma SwapPlaces(b: Book, n: int, pos: int)
    requires 0 <= n <= pos < |b.vRandom| && b.vRandom[n] in b.mapInfo && b.vRandom[pos] in b.mapInfo
    ensures var r := Swapped(b, n, pos);
            && |r.vRandom| == |b.vRandom| && r.vRandom[..n] == b.vRandom[..n] && r.vRandom[n] in r.mapInfo
  {
  }

  /** vRandom lists the entries, each once. */
  lemma RandomLists(b: Book)
    requires Consistent(b)
    ensures AddrOk(b.mapInfo, b.mapAddr)
    ensures forall i :: 0 <= i < |b.vRandom| ==> b.vRandom[i] in b.mapInfo
    ensures forall i, j :: 0 <= i < j < |b.vRandom| ==> b.vRandom[i] != b.vRandom[j]
    ensures forall id :: id in b.mapInfo ==> id in b.vRandom
  {
  }

  /** The number of entries: every address is either new or tried, and the counters say how many of each. */
  lemma SizeIsCounted(b: Book)
    requires Consistent(b)
    ensures |b.vRandom| == b.nNew + b.nTried
  {
    var news, tried := NewIds(b.mapInfo), TriedIds(b.mapInfo);
    forall id
      ensures id in b.mapInfo.Keys <==> id in news + tried
    {
    }
    assert b.mapInfo.Keys == news + tried && news !! tried;
    RandomLists(b);
    forall id
      ensures id in b.vRandom <==> id in b.mapInfo.Keys
    {
    }
    DistinctCount(b.vRandom, b.mapInfo.Keys);
  }

  lemma {:induction false} DistinctCount(v: seq<int>, s: set<int>)
    requires forall i, j :: 0 <= i < j < |v| ==> v[i] != v[j]
    requires (forall i :: 0 <= i < |v| ==> v[i] in s) && forall x :: x in s ==> x in v
    ensures |s| == |v|
    decreases |v|
  {
    if v == [] {
      forall x
        ensures x !in s
      {
        assert x !in v;
      }
      assert s == {};
    } else {
      var last := |v| - 1;
      assert v == v[..last] + [v[last]];
      DistinctCount(v[..last], s - {v[last]});
    }
  }

  // --- times ----------------------------------------------------------------------------------------

  /** Setting the times of one entry leaves sensible times exactly if they are sensible. */
  lemma SetTimesIff(m: map<int, Info>, id: int, info: Info)
    requires TimesOk(m)
    ensures TimesOk(m[id := info]) <==>
              info.nLastTry >= 0 && info.nLastSuccess >= 0 && (info.fInTried ==> info.nLastSuccess != 0)
  {
    assert m[id := info][id] == info;
  }

  lemma SettledTimes(m: map<int, Info>, m': map<int, Info>, id: int, now: int)
    requires TimesOk(m) && Settled(m, m', id, now)
    ensures TimesOk(m')
  {
    hide IsTerrible;
  }

  /** Marking a known entry as reachable leaves sensible times exactly at a positive time. */
  lemma GoodTimesIff(m: map<int, Info>, m': map<int, Info>, moved: set<int>, id: int, nTime: int)
    requires TimesOk(m) && id in m && id in m' && m'[id].fInTried
    requires SameRecord(m[id].(nLastSuccess := nTime, nLastTry := nTime, nAttempts := 0), m'[id])
    requires Reshuffled(m[id := m[id].(nLastSuccess := nTime, nLastTry := nTime, nAttempts := 0)], m', moved + {id})
    requires forall k :: k in moved && k in m ==> m[k].fInTried
    ensures TimesOk(m') <==> nTime > 0
  {
    var marked := m[id := m[id].(nLastSuccess := nTime, nLastTry := nTime, nAttempts := 0)];
    var gone :| Rearranged(marked, m', moved + {id}, gone);
    if nTime > 0 {
      forall k | k in m'
        ensures m'[k].nLastTry >= 0 && m'[k].nLastSuccess >= 0 && (m'[k].fInTried ==> m'[k].nLastSuccess != 0)
      {
        assert SameRecord(marked[k], m'[k]);
      }
    }
  }

  lemma OccupantTried(b: Book, s: Slot)
    requires Consistent(b)
    ensures forall k :: k in Occupant(b.tried, s) ==> k in b.mapInfo && b.mapInfo[k].fInTried
  {
  }

  lemma MovedTimes(m: map<int, Info>, m': map<int, Info>)
    requires TimesOk(m) && OnlyMoved(m, m')
    ensures TimesOk(m')
  {
  }

  /** Hearing of an address again does not touch the recorded times of tries and successes. */
  lemma RefreshedTimes(m: map<int, Info>, m': map<int, Info>, id: int, addr: Address, nTimePenalty: int, now: int)
    requires TimesOk(m) && id in m && Settled(m[id := Refreshed(m[id], addr, nTimePenalty, now)], m', id, now)
    ensures TimesOk(m')
  {
    hide Settled;
    SetTimesIff(m, id, Refreshed(m[id], addr, nTimePenalty, now));
    SettledTimes(m[id := Refreshed(m[id], addr, nTimePenalty, now)], m', id, now);
  }

  lemma EnrolledTimes(m: map<int, Info>, m': map<int, Info>, id: int, addr: Address, source: NetAddr, pos: int, nTimePenalty: int, now: int)
    requires TimesOk(m) && Settled(m[id := FirstInfo(addr, source, pos, nTimePenalty)], m', id, now)
    ensures TimesOk(m')
  {
    hide Settled;
    SetTimesIff(m, id, FirstInfo(addr, source, pos, nTimePenalty));
    SettledTimes(m[id := FirstInfo(addr, source, pos, nTimePenalty)], m', id, now);
  }
}
