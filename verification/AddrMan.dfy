/** The address manager object: five redundant indexes changed in place. */
module AddrMan {
  import opened Basics
  import opened AddrBook
  import opened AddrCheck
  import opened Powers

  const GETADDR_MAX_PCT := 23
  const GETADDR_MAX := 2500

  /** A table in memory, with -1 in its free slots, and the same table as a map. */
  ghost predicate Mirrors(a: array2<int>, table: map<Slot, int>)
    reads a
  {
    && (forall s :: s in table ==> 0 <= s.0 < a.Length0 && 0 <= s.1 < a.Length1)
    && (forall i, j :: 0 <= i < a.Length0 && 0 <= j < a.Length1 ==>
          ((i, j) in table <==> a[i, j] != -1) && ((i, j) in table ==> table[(i, j)] == a[i, j]))
  }

  /** The slots that refer to an entry in the buckets below k. */
  ghost function RefsBelow(news: map<Slot, int>, id: int, k: int): set<Slot> { set s | s in news && news[s] == id && s.0 < k }

  /** In a sound new table an entry has at most one reference per bucket, and its hashes say where. */
  lemma RefsInBucket(h: Hashes, m: map<int, Info>, news: map<Slot, int>, id: int, k: int)
    requires NewOk(h, m, news) && id in m && 0 <= k < NEW_BUCKET_COUNT
    ensures var s := NewSlot(h, m[id].addr, k);
            s !in RefsBelow(news, id, k)
            && RefsBelow(news, id, k + 1) == if s in news && news[s] == id then RefsBelow(news, id, k) + {s} else RefsBelow(news, id, k)
  {
    var s := NewSlot(h, m[id].addr, k);
    forall t | t in news && news[t] == id && t.0 == k
      ensures t == s
    {
    }
    var both := if s in news && news[s] == id then RefsBelow(news, id, k) + {s} else RefsBelow(news, id, k);
    forall t
      ensures t in RefsBelow(news, id, k + 1) <==> t in both
    {
    }
  }

  lemma RefsAllBelow(h: Hashes, m: map<int, Info>, news: map<Slot, int>, id: int)
    requires NewOk(h, m, news)
    ensures RefsBelow(news, id, 0) == {} && RefsBelow(news, id, NEW_BUCKET_COUNT) == Refs(news, id)
  {
    forall t
      ensures t in RefsBelow(news, id, NEW_BUCKET_COUNT) <==> t in Refs(news, id)
    {
    }
  }

  /** An entry taken out of the buckets below k. */
  ghost function WithdrawnBelow(b: Book, id: int, k: int): (r: Book)
    requires id in b.mapInfo
    ensures r.hashes == b.hashes && id in r.mapInfo && r.mapInfo[id].addr == b.mapInfo[id].addr
  {
    var gone := RefsBelow(b.news, id, k);
    b.(news := b.news - gone, mapInfo := b.mapInfo[id := b.mapInfo[id].(nRefCount := b.mapInfo[id].nRefCount - |gone|)])
  }

  /** Take away an entry's reference in a slot, if it has one there. */
  ghost function Released(b: Book, id: int, s: Slot): Book
    requires id in b.mapInfo
  {
    if s in b.news && b.news[s] == id then Unreferenced(b, s) else b
  }

  lemma WithdrawStep(b: Book, id: int, k: int)
    requires NewOk(b.hashes, b.mapInfo, b.news) && id in b.mapInfo && 0 <= k < NEW_BUCKET_COUNT
    ensures WithdrawnBelow(b, id, k + 1) == Released(WithdrawnBelow(b, id, k), id, NewSlot(b.hashes, b.mapInfo[id].addr, k))
  {
    hide NewOk, RefsBelow, NewSlot;
    RefsInBucket(b.hashes, b.mapInfo, b.news, id, k);
    var s := NewSlot(b.hashes, b.mapInfo[id].addr, k);
    var gone := RefsBelow(b.news, id, k);
    if s in b.news && b.news[s] == id {
      RemoveOne(b.news, gone, s);
      UpdateTwice(b.mapInfo, id, b.mapInfo[id].(nRefCount := b.mapInfo[id].nRefCount - |gone|),
                  b.mapInfo[id].(nRefCount := b.mapInfo[id].nRefCount - |gone| - 1));
    }
  }

  lemma RemoveOne(news: map<Slot, int>, gone: set<Slot>, s: Slot)
    requires s in news && s !in gone
    ensures s in news - gone && (news - gone)[s] == news[s]
    ensures news - (gone + {s}) == (news - gone) - {s} && |gone + {s}| == |gone| + 1
  {
  }

  lemma UpdateTwice(m: map<int, Info>, id: int, first: Info, second: Info)
    ensures m[id := first][id := second] == m[id := second]
  {
  }

  lemma WithdrawStart(b: Book, id: int)
    requires NewOk(b.hashes, b.mapInfo, b.news) && id in b.mapInfo
    ensures WithdrawnBelow(b, id, 0) == b
  {
    RefsAllBelow(b.hashes, b.mapInfo, b.news, id);
    assert b.news - {} == b.news;
  }

  lemma WithdrawEnds(b: Book, id: int)
    requires Consistent(b) && id in b.mapInfo
    ensures WithdrawnBelow(b, id, NEW_BUCKET_COUNT).(nNew := b.nNew - 1) == Withdrawn(b, id)
  {
    assert RefOk(b.mapInfo[id], |Refs(b.news, id)|, false);
    RefsAllBelow(b.hashes, b.mapInfo, b.news, id);
    hide Consistent, Refs;
  }

  /** Counting round from any start reaches every bucket. */
  lemma Rotate(bucket: int, start: nat)
    requires 0 <= bucket < NEW_BUCKET_COUNT
    ensures exists k :: 0 <= k < NEW_BUCKET_COUNT && Turned(start, k) == bucket
  {
    var k := (bucket - start) % NEW_BUCKET_COUNT;
    assert 0 <= k < NEW_BUCKET_COUNT && Turned(start, k) == bucket;
  }

  function Turned(start: nat, k: int): int { (k + start) % NEW_BUCKET_COUNT }

  /** The addresses of the entries in a list that are not terrible. */
  function Picks(m: map<int, Info>, ids: seq<int>, now: int): (r: seq<Service>)
    requires forall i :: 0 <= i < |ids| ==> ids[i] in m
  {
    if ids == [] then []
    else
      var last := |ids| - 1;
      Picks(m, ids[..last], now) + if IsTerrible(m[ids[last]], now) then [] else [m[ids[last]].addr]
  }

  /** Some addresses are those of the listed entries that are not terrible, each once. */
  ghost predicate PickedRight(m: map<int, Info>, addrs: map<NetAddr, int>, ids: seq<int>, now: int, picks: seq<Service>)
    requires forall id :: id in ids ==> id in m
  {
    && |picks| <= |ids| && Distinct(picks)
    && (forall a :: a in picks ==> a.ip in addrs && addrs[a.ip] in ids
                                   && (var id := addrs[a.ip]; id in m && m[id].addr == a && !IsTerrible(m[id], now)))
    && (forall id :: id in ids && !IsTerrible(m[id], now) ==> m[id].addr in picks)
  }

  lemma PickOne(m: map<int, Info>, addrs: map<NetAddr, int>, ids: seq<int>, now: int, picks: seq<Service>, id: int)
    requires (forall id :: id in ids ==> id in m) && id in m && id !in ids && AddrOk(m, addrs) && PickedRight(m, addrs, ids, now, picks)
    ensures PickedRight(m, addrs, ids + [id], now, picks + if IsTerrible(m[id], now) then [] else [m[id].addr])
  {
    hide IsTerrible;
    assert addrs[m[id].addr.ip] == id;
    assert m[id].addr !in picks;
  }

  lemma {:induction false} PicksRight(m: map<int, Info>, addrs: map<NetAddr, int>, ids: seq<int>, now: int)
    requires (forall i :: 0 <= i < |ids| ==> ids[i] in m) && Distinct(ids) && AddrOk(m, addrs)
    ensures PickedRight(m, addrs, ids, now, Picks(m, ids, now))
    decreases |ids|
  {
    hide IsTerrible, PickedRight, AddrOk;
    if ids == [] {
      NonePicked(m, addrs, now);
    } else {
      var last := |ids| - 1;
      PicksRight(m, addrs, ids[..last], now);
      assert ids == ids[..last] + [ids[last]];
      PickOne(m, addrs, ids[..last], now, Picks(m, ids[..last], now), ids[last]);
    }
  }

  lemma NonePicked(m: map<int, Info>, addrs: map<NetAddr, int>, now: int)
    ensures PickedRight(m, addrs, [], now, [])
  {
  }

  lemma SameTerrible(i: Info, j: Info, now: int)
    requires j == i.(nRandomPos := j.nRandomPos)
    ensures IsTerrible(j, now) == IsTerrible(i, now)
  {
  }

  /** The addresses gathered from the entries drawn so far. */
  ghost predicate Gathered(m: map<int, Info>, ids: seq<int>, now: int, vAddr: seq<Service>) {
    (forall i :: 0 <= i < |ids| ==> ids[i] in m) && vAddr == Picks(m, ids, now)
  }

  /** A known address whose entry is fit to be shown. */
  predicate Presentable(m: map<int, Info>, addrs: map<NetAddr, int>, a: Service, now: int) {
    a.ip in addrs && addrs[a.ip] in m && m[addrs[a.ip]].addr == a && Fit(m[addrs[a.ip]], now)
  }

  lemma GatherStart(m: map<int, Info>, now: int)
    ensures OnlyMoved(m, m) && Gathered(m, [], now, [])
  {
  }

  lemma GatherStep(m: map<int, Info>, ids: seq<int>, now: int, vAddr: seq<Service>, id: int)
    requires Gathered(m, ids, now, vAddr) && id in m
    ensures Gathered(m, ids + [id], now, vAddr + if IsTerrible(m[id], now) then [] else [m[id].addr])
  {
    assert (ids + [id])[..|ids|] == ids;
  }

  lemma GatherDone(b: Book, b': Book, n: nat, now: int, vAddr: seq<Service>)
    requires Consistent(b) && Consistent(b') && OnlyMoved(b.mapInfo, b'.mapInfo) && n <= |b'.vRandom|
    requires Gathered(b.mapInfo, b'.vRandom[..n], now, vAddr)
    ensures Distinct(vAddr) && forall a :: a in vAddr ==> Presentable(b.mapInfo, b.mapAddr, a, now)
    ensures n == |b'.vRandom| ==> forall id :: id in b.mapInfo && Fit(b.mapInfo[id], now) ==> b.mapInfo[id].addr in vAddr
  {
    hide Sound, IsTerrible, Fit, AddrOk;
    forall info | info in b.mapInfo.Values
      ensures IsTerrible(info, now) <==> !Fit(info, now)
    {
      TerribleIff(info, now);
    }
    RandomLists(b);
    RandomLists(b');
    var ids := b'.vRandom[..n];
    PicksRight(b.mapInfo, b.mapAddr, ids, now);
    if n == |b'.vRandom| {
      assert ids == b'.vRandom;
      forall id | id in b.mapInfo && Fit(b.mapInfo[id], now)
        ensures b.mapInfo[id].addr in vAddr
      {
        assert id in b'.mapInfo;
        assert id in ids;
      }
    }
  }

  /** An entry that is not tried yet may get one more place, ever less likely the more it has, if the announcement is news. */
  ghost predicate AsksForPlace(info: Info, addr: Address, draw: nat) {
    && !info.fInTried && 0 <= info.nRefCount < NEW_BUCKETS_PER_ADDRESS && draw % Pow2(info.nRefCount) == 0
    && addr.nTime != 0 && (info.nTime == 0 || info.nTime < addr.nTime)
  }

  lemma TakenTables(b: Book, id: int, s: Slot)
    requires Clearable(b, s) && RandomOk(b.mapInfo, b.vRandom) && id in Cleared(b, s).mapInfo
    ensures var r := Referenced(Cleared(b, s), id, s); r.news == b.news[s := id] && r.tried == b.tried && id in r.mapInfo
  {
    hide RandomOk;
  }

  /** Refreshing an entry does not change who may take a slot. */
  lemma RefreshedTakes(b: Book, id: int, info: Info, s: Slot, now: int)
    requires id in b.mapInfo && info.nRefCount == b.mapInfo[id].nRefCount
    ensures (if MayTake(SetInfo(b, id, info), id, s, now) then b.news[s := id] else b.news)
         == (if MayTake(b, id, s, now) then b.news[s := id] else b.news)
  {
    hide IsTerrible;
    if s in b.news && b.news[s] == id {
      assert b.news[s := id] == b.news;
    }
  }

  lemma SettleNothing(m: map<int, Info>, id: int, now: int)
    ensures Settled(m, m, id, now)
  {
  }

  /** A new entry has between one and eight references. */
  lemma RefsKnown(b: Book, id: int)
    requires Consistent(b) && id in b.mapInfo && !b.mapInfo[id].fInTried
    ensures 0 < b.mapInfo[id].nRefCount <= NEW_BUCKETS_PER_ADDRESS
  {
    assert RefOk(b.mapInfo[id], |Refs(b.news, id)|, false);
  }

  lemma StaysTried(m: map<int, Info>, moved: set<int>)
    ensures Reshuffled(m, m, moved)
  {
    assert Rearranged(m, m, moved, -1);
  }

  class CAddrMan {
    const hashes: Hashes
    var nIdCount: int
    var mapInfo: map<int, Info>
    var mapAddr: map<NetAddr, int>
    var vRandom: seq<int>
    var nTried: int
    var nNew: int
    const vvTried: array2<int>
    const vvNew: array2<int>
    ghost var tried: map<Slot, int>  // what vvTried holds
    ghost var news: map<Slot, int>   // what vvNew holds

    ghost predicate Shaped()
      reads this, vvTried, vvNew
    {
      && Mirrors(vvTried, tried) && Mirrors(vvNew, news)
      && vvTried != vvNew
      && vvTried.Length0 == TRIED_BUCKET_COUNT && vvTried.Length1 == BUCKET_SIZE
      && vvNew.Length0 == NEW_BUCKET_COUNT && vvNew.Length1 == BUCKET_SIZE
    }

    /** All indexes as one value. */
    ghost function Tables(): Book
      reads this
    {
      Book(hashes, nIdCount, mapInfo, mapAddr, vRandom, nTried, nNew, tried, news)
    }

    ghost predicate Valid()
      reads this, vvTried, vvNew
    {
      Shaped() && Consistent(Tables())
    }

    /** An empty manager is consistent. */
    constructor (h: Hashes)
      ensures Valid() && Tables() == Empty(h) && TimesOk(mapInfo)
      ensures fresh(vvTried) && fresh(vvNew)
    {
      hashes := h;
      nIdCount, mapInfo, mapAddr, vRandom, nTried, nNew := 0, map[], map[], [], 0, 0;
      vvTried := new int[TRIED_BUCKET_COUNT, BUCKET_SIZE]((_, _) => -1);
      vvNew := new int[NEW_BUCKET_COUNT, BUCKET_SIZE]((_, _) => -1);
      tried, news := map[], map[];
      new;
      assert TriedIds(map[]) == {} && NewIds(map[]) == {};
    }

    method Create(addr: Address, source: NetAddr) returns (nId: int)
      requires Shaped()
      modifies this`nIdCount, this`mapInfo, this`mapAddr, this`vRandom
      ensures nId == old(nIdCount) && Tables() == Created(old(Tables()), addr, source)
    {
      nId := nIdCount;
      nIdCount := nIdCount + 1;
      mapInfo := mapInfo[nId := NewInfo(addr, source, |vRandom|)];
      mapAddr := mapAddr[addr.service.ip := nId];
      vRandom := vRandom + [nId];
    }

    method SwapRandom(nRndPos1: int, nRndPos2: int)
      requires 0 <= nRndPos1 < |vRandom| && 0 <= nRndPos2 < |vRandom|
      requires vRandom[nRndPos1] in mapInfo && vRandom[nRndPos2] in mapInfo
      modifies this`mapInfo, this`vRandom
      ensures Tables() == Swapped(old(Tables()), nRndPos1, nRndPos2)
    {
      if nRndPos1 == nRndPos2 {
        return;
      }
      var nId1, nId2 := vRandom[nRndPos1], vRandom[nRndPos2];
      mapInfo := Placed(mapInfo, nId1, nRndPos2);
      mapInfo := Placed(mapInfo, nId2, nRndPos1);
      vRandom := vRandom[nRndPos1 := nId2];
      vRandom := vRandom[nRndPos2 := nId1];
    }

    /** Forget an entry; it must be in no table. */
    method Delete(nId: int)
      requires nId in mapInfo && !mapInfo[nId].fInTried && mapInfo[nId].nRefCount == 0
      requires RandomOk(mapInfo, vRandom)
      modifies this
      ensures Tables() == Deleted(old(Tables()), nId)
    {
      hide RandomOk, Swapped;
      PlaceKnown(mapInfo, vRandom, nId);
      SwapToBack(Tables(), nId);
      SwapRandom(mapInfo[nId].nRandomPos, |vRandom| - 1);
      vRandom := vRandom[..|vRandom| - 1];
      mapAddr := mapAddr - {mapInfo[nId].addr.ip};
      mapInfo := mapInfo - {nId};
      nNew := nNew - 1;
    }

    /** Write a slot of the new table; -1 frees it. */
    method SetNew(i: int, j: int, id: int)
      requires Shaped() && 0 <= i < NEW_BUCKET_COUNT && 0 <= j < BUCKET_SIZE
      modifies vvNew, this`news
      ensures Shaped() && news == if id == -1 then old(news) - {(i, j)} else old(news)[(i, j) := id]
    {
      vvNew[i, j] := id;
      news := if id == -1 then news - {(i, j)} else news[(i, j) := id];
    }

    /** Write a slot of the tried table; -1 frees it. */
    method SetTried(i: int, j: int, id: int)
      requires Shaped() && 0 <= i < TRIED_BUCKET_COUNT && 0 <= j < BUCKET_SIZE
      modifies vvTried, this`tried
      ensures Shaped() && tried == if id == -1 then old(tried) - {(i, j)} else old(tried)[(i, j) := id]
    {
      vvTried[i, j] := id;
      tried := if id == -1 then tried - {(i, j)} else tried[(i, j) := id];
    }

    /** Clear a slot of the new table, and forget its entry if that was the last reference. */
    method ClearNew(nUBucket: int, nUBucketPos: int)
      requires Shaped() && 0 <= nUBucket < NEW_BUCKET_COUNT && 0 <= nUBucketPos < BUCKET_SIZE
      requires RandomOk(mapInfo, vRandom) && Clearable(Tables(), (nUBucket, nUBucketPos))
      modifies this, vvNew
      ensures Shaped() && Tables() == Cleared(old(Tables()), (nUBucket, nUBucketPos))
    {
      if vvNew[nUBucket, nUBucketPos] != -1 {
        var nIdDelete := vvNew[nUBucket, nUBucketPos];
        assert news[(nUBucket, nUBucketPos)] == nIdDelete;
        mapInfo := mapInfo[nIdDelete := mapInfo[nIdDelete].(nRefCount := mapInfo[nIdDelete].nRefCount - 1)];
        SetNew(nUBucket, nUBucketPos, -1);
        assert Tables() == Unreferenced(old(Tables()), (nUBucket, nUBucketPos));
        if mapInfo[nIdDelete].nRefCount == 0 {
          Delete(nIdDelete);
        }
      }
    }

    /** Take an entry out of the bucket of the new table where it might be. */
    method WithdrawFrom(nId: int, bucket: int)
      requires Shaped() && 0 <= bucket < NEW_BUCKET_COUNT && nId in mapInfo && nId != -1
      modifies this`mapInfo, this`news, vvNew
      ensures Shaped() && Tables() == Released(old(Tables()), nId, NewSlot(hashes, old(mapInfo)[nId].addr, bucket))
    {
      var pos := BucketPosition(hashes, true, bucket, mapInfo[nId].addr);
      if vvNew[bucket, pos] == nId {
        SetNew(bucket, pos, -1);
        mapInfo := mapInfo[nId := mapInfo[nId].(nRefCount := mapInfo[nId].nRefCount - 1)];
      }
    }

    /** Take an entry out of every bucket of the new table, one after the other. */
    method WithdrawFromAll(nId: int)
      requires Shaped() && NewOk(hashes, mapInfo, news) && nId in mapInfo && nId != -1
      modifies this`mapInfo, this`news, vvNew
      ensures Shaped() && Tables() == WithdrawnBelow(old(Tables()), nId, NEW_BUCKET_COUNT)
    {
      hide Mirrors, WithdrawnBelow, NewSlot, Released, NewOk;
      ghost var b := Tables();
      WithdrawStart(b, nId);
      for bucket := 0 to NEW_BUCKET_COUNT
        invariant Shaped() && Tables() == WithdrawnBelow(b, nId, bucket)
      {
        WithdrawStep(b, nId, bucket);
        WithdrawFrom(nId, bucket);
      }
    }

    /** Take an entry out of the new table, and stop counting it. */
    method Withdraw(nId: int)
      requires Valid() && nId in mapInfo
      modifies this`mapInfo, this`news, this`nNew, vvNew
      ensures Shaped() && Tables() == Withdrawn(old(Tables()), nId)
    {
      hide Mirrors, WithdrawnBelow, Withdrawn, Refs, RandomOk, AddrOk, TriedOk, CountsOk, NewOk;
      WithdrawEnds(Tables(), nId);
      WithdrawFromAll(nId);
      nNew := nNew - 1;
    }

    /** Take the entry out of a slot of the tried table. */
    method Demote(nKBucket: int, nKBucketPos: int) returns (nIdEvict: int)
      requires Shaped() && 0 <= nKBucket < TRIED_BUCKET_COUNT && 0 <= nKBucketPos < BUCKET_SIZE
      requires (nKBucket, nKBucketPos) in tried && tried[(nKBucket, nKBucketPos)] in mapInfo
      modifies this`mapInfo, this`tried, this`nTried, vvTried
      ensures Shaped() && nIdEvict == old(tried)[(nKBucket, nKBucketPos)]
      ensures Tables() == Demoted(old(Tables()), (nKBucket, nKBucketPos))
    {
      nIdEvict := vvTried[nKBucket, nKBucketPos];
      mapInfo := mapInfo[nIdEvict := mapInfo[nIdEvict].(fInTried := false)];
      SetTried(nKBucket, nKBucketPos, -1);
      nTried := nTried - 1;
    }

    /** Enter a reference to an entry into a slot of the new table. */
    method Refer(nId: int, nUBucket: int, nUBucketPos: int, nRefCount: int)
      requires Shaped() && 0 <= nUBucket < NEW_BUCKET_COUNT && 0 <= nUBucketPos < BUCKET_SIZE
      requires nId != -1 && nId in mapInfo && nRefCount == mapInfo[nId].nRefCount + 1
      modifies this`mapInfo, this`news, vvNew
      ensures Shaped() && Tables() == Referenced(old(Tables()), nId, (nUBucket, nUBucketPos))
    {
      mapInfo := mapInfo[nId := mapInfo[nId].(nRefCount := nRefCount)];
      SetNew(nUBucket, nUBucketPos, nId);
    }

    /** Send the entry in a slot of the tried table back to the new table. */
    method Evict(nKBucket: int, nKBucketPos: int, ghost nId: int)
      requires Shaped() && 0 <= nKBucket < TRIED_BUCKET_COUNT && 0 <= nKBucketPos < BUCKET_SIZE
      requires Sound(Tables(), {nId}, 1) && nId in mapInfo && mapInfo[nId].nRefCount == 0
      requires (nKBucket, nKBucketPos) in tried
      modifies this, vvTried, vvNew
      ensures Shaped() && Evictable(old(Tables()), (nKBucket, nKBucketPos))
      ensures Tables() == Evicted(old(Tables()), (nKBucket, nKBucketPos))
    {
      hide Sound, RandomOk, Rearranged, HomeHolder, Clearable, Mirrors, Cleared;
      ghost var b, s := Tables(), (nKBucket, nKBucketPos);
      DemotedReady(b, s, nId);
      DisplaceKeeps(b, s, nId);
      var nIdEvict := Demote(nKBucket, nKBucketPos);
      var info := mapInfo[nIdEvict];
      var nUBucket := NewBucket(hashes, info.addr, info.source);
      var nUBucketPos := BucketPosition(hashes, true, nUBucket, info.addr);
      ClearNew(nUBucket, nUBucketPos);
      assert Tables() == Displaced(b, s);
      Refer(nIdEvict, nUBucket, nUBucketPos, 1);
      nNew := nNew + 1;
    }

    /** Enter an entry into a slot of the tried table. */
    method Promote(nKBucket: int, nKBucketPos: int, nId: int)
      requires Shaped() && 0 <= nKBucket < TRIED_BUCKET_COUNT && 0 <= nKBucketPos < BUCKET_SIZE && nId in mapInfo && nId != -1
      modifies this`mapInfo, this`tried, this`nTried, vvTried
      ensures Shaped() && Tables() == Promoted(old(Tables()), nId, (nKBucket, nKBucketPos))
    {
      SetTried(nKBucket, nKBucketPos, nId);
      nTried := nTried + 1;
      mapInfo := mapInfo[nId := mapInfo[nId].(fInTried := true)];
    }

    /** Free an entry's slot in the tried table. */
    method MakeRoom(nKBucket: int, nKBucketPos: int, ghost nId: int)
      requires Shaped() && 0 <= nKBucket < TRIED_BUCKET_COUNT && 0 <= nKBucketPos < BUCKET_SIZE
      requires Sound(Tables(), {nId}, 1) && nId in mapInfo && !mapInfo[nId].fInTried && mapInfo[nId].nRefCount == 0
      modifies this, vvTried, vvNew
      ensures Shaped() && RoomMade(old(Tables()), Tables(), (nKBucket, nKBucketPos), nId)
    {
      ghost var b, s := Tables(), (nKBucket, nKBucketPos);
      MadeRoomKeeps(b, s, nId);
      if vvTried[nKBucket, nKBucketPos] != -1 {
        Evict(nKBucket, nKBucketPos, nId);
      }
      hide Sound, RoomMade, Evicted, Mirrors;
    }

    /** Move an entry to the tried table. The entry in its slot there goes back to the new table, where it may
        cost one other entry its place. Nothing tried is ever forgotten. */
    method MakeTried(nId: int)
      requires Valid() && nId in mapInfo && !mapInfo[nId].fInTried
      modifies this, vvTried, vvNew
      ensures Valid() && nId in mapInfo && mapInfo[nId].fInTried && SameRecord(old(mapInfo)[nId], mapInfo[nId])
      ensures Reshuffled(old(mapInfo), mapInfo, Occupant(old(tried), TriedSlot(hashes, old(mapInfo)[nId].addr)) + {nId})
    {
      hide Sound, Mirrors, Withdrawn, RoomMade;
      ghost var b := Tables();
      WithdrawnReady(b, nId);
      Withdraw(nId);
      var addr := mapInfo[nId].addr;
      var nKBucket := TriedBucket(hashes, addr);
      var nKBucketPos := BucketPosition(hashes, false, nKBucket, addr);
      MakeRoom(nKBucket, nKBucketPos, nId);
      MakeTriedKeeps(b, nId, Tables(), (nKBucket, nKBucketPos));
      Promote(nKBucket, nKBucketPos, nId);
    }

    /** Enter an entry into a slot of the new table, which whoever held it loses. */
    method TakeSlot(nId: int, nUBucket: int, nUBucketPos: int)
      requires Shaped() && 0 <= nUBucket < NEW_BUCKET_COUNT && 0 <= nUBucketPos < BUCKET_SIZE && nId != -1
      requires RandomOk(mapInfo, vRandom) && Clearable(Tables(), (nUBucket, nUBucketPos)) && nId in Cleared(Tables(), (nUBucket, nUBucketPos)).mapInfo
      modifies this, vvNew
      ensures Shaped() && Tables() == Referenced(Cleared(old(Tables()), (nUBucket, nUBucketPos)), nId, (nUBucket, nUBucketPos))
    {
      hide RandomOk, Cleared;
      ClearNew(nUBucket, nUBucketPos);
      Refer(nId, nUBucket, nUBucketPos, mapInfo[nId].nRefCount + 1);
    }

    /** Give an entry a slot of the new table if it may have it; an entry that ends up without any reference
        is forgotten again. */
    method Place(nId: int, source: NetAddr, now: int)
      requires Shaped() && Sound(Tables(), {nId}, 0) && nId in mapInfo && !mapInfo[nId].fInTried
      requires mapInfo[nId].nRefCount < NEW_BUCKETS_PER_ADDRESS
      modifies this, vvNew
      ensures Valid() && Settled(old(mapInfo), mapInfo, nId, now)
      ensures var s := NewSlot(hashes, old(mapInfo)[nId].addr, NewBucket(hashes, old(mapInfo)[nId].addr, source));
              && (nId in mapInfo <==> old(mapInfo)[nId].nRefCount > 0 || MayTake(old(Tables()), nId, s, now))
              && news == if MayTake(old(Tables()), nId, s, now) then old(news)[s := nId] else old(news)
      ensures tried == old(tried)
    {
      hide Sound, RandomOk, Settled, IsTerrible, Cleared, Deleted, Rearranged, Referenced;
      ghost var b := Tables();
      LeaveKeeps(b, nId, now);
      var info := mapInfo[nId];
      var nUBucket := NewBucket(hashes, info.addr, source);
      var nUBucketPos := BucketPosition(hashes, true, nUBucket, info.addr);
      ghost var s := (nUBucket, nUBucketPos);
      OccupiedSlot(b, s, {nId}, 0);
      var holder := vvNew[nUBucket, nUBucketPos];
      if holder != nId {
        TakeReady(b, nId, s);
        var fInsert := holder == -1;
        if !fInsert {
          var existing := mapInfo[holder];
          fInsert := IsTerrible(existing, now) || (existing.nRefCount > 1 && info.nRefCount == 0);
        }
        if fInsert {
          TakeKeeps(b, nId, s, now);
          TakenTables(b, nId, s);
          TakeSlot(nId, nUBucket, nUBucketPos);
        } else if info.nRefCount == 0 {
          Delete(nId);
        }
      }
    }

    /** Look for a bucket of the new table that an entry is in, starting anywhere: a new entry is always found. */
    method FindReference(nId: int, nRnd: nat) returns (nUBucket: int)
      requires Valid() && nId in mapInfo && !mapInfo[nId].fInTried
      ensures 0 <= nUBucket < NEW_BUCKET_COUNT && Holder(Tables(), NewSlot(hashes, mapInfo[nId].addr, nUBucket)) == nId
    {
      hide Sound;
      ghost var b := Tables();
      ghost var bucket := HasReference(b, nId);
      LookupFinds(b, nId);
      nUBucket := -1;
      var n := 0;
      while n < NEW_BUCKET_COUNT && nUBucket == -1
        invariant 0 <= n <= NEW_BUCKET_COUNT
        invariant nUBucket == -1 ==> forall k :: 0 <= k < n ==> Turned(nRnd, k) != bucket
        invariant nUBucket != -1 ==>
          0 <= nUBucket < NEW_BUCKET_COUNT && Holder(b, NewSlot(hashes, mapInfo[nId].addr, nUBucket)) == nId
      {
        var nB := Turned(nRnd, n);
        var nBpos := BucketPosition(hashes, true, nB, mapInfo[nId].addr);
        if vvNew[nB, nBpos] == nId {
          nUBucket := nB;
        }
        n := n + 1;
      }
      Rotate(bucket, nRnd);
    }

    /** Change what is recorded about an entry. */
    method Touch(nId: int, info: Info)
      requires Valid() && nId in mapInfo && info.addr == mapInfo[nId].addr
      requires info.nRandomPos == mapInfo[nId].nRandomPos && info.nRefCount == mapInfo[nId].nRefCount
      requires info.fInTried == mapInfo[nId].fInTried
      modifies this`mapInfo
      ensures Valid() && Tables() == SetInfo(old(Tables()), nId, info)
    {
      hide Sound, Mirrors;
      TouchKeeps(Tables(), nId, info, {}, 0);
      mapInfo := mapInfo[nId := info];
    }

    /** The entry for an address with its port, or -1. */
    method Find(addr: Service) returns (nId: int)
      requires Valid()
      ensures nId == Lookup(Tables(), addr)
    {
      hide Sound, Mirrors;
      if addr.ip !in mapAddr {
        return -1;
      }
      KnownEntry(Tables(), addr.ip);
      nId := mapAddr[addr.ip];
      if mapInfo[nId].addr != addr {
        return -1;
      }
    }

    /** Mark an address as reachable. If it is known with this port, it is in the tried table afterwards. */
    method Good(addr: Service, nTime: int, nRnd: nat)
      requires Valid()
      modifies this, vvTried, vvNew
      ensures Valid()
      ensures var id := Lookup(old(Tables()), addr);
              if id == -1 then Tables() == old(Tables())
              else
                var marked := old(mapInfo)[id].(nLastSuccess := nTime, nLastTry := nTime, nAttempts := 0);
                && id in mapInfo && mapInfo[id].fInTried && SameRecord(marked, mapInfo[id])
                && Reshuffled(old(mapInfo)[id := marked], mapInfo, Occupant(old(tried), TriedSlot(hashes, addr)) + {id})
      ensures TimesOk(old(mapInfo)) ==> (TimesOk(mapInfo) <==> Lookup(old(Tables()), addr) == -1 || nTime > 0)
    {
      hide Sound, Mirrors, TriedSlot, Rearranged, TimesOk, Reshuffled;
      var nId := Find(addr);
      if nId == -1 {
        return;
      }
      ghost var m, moved := mapInfo, Occupant(tried, TriedSlot(hashes, addr));
      OccupantTried(Tables(), TriedSlot(hashes, addr));
      Touch(nId, mapInfo[nId].(nLastSuccess := nTime, nLastTry := nTime, nAttempts := 0));
      if mapInfo[nId].fInTried {
        StaysTried(mapInfo, moved + {nId});
      } else {
        var nUBucket := FindReference(nId, nRnd);
        if nUBucket != -1 {
          MakeTried(nId);
        }
      }
      if TimesOk(m) {
        GoodTimesIff(m, mapInfo, moved, nId, nTime);
      }
    }

    /** Record a connection attempt. */
    method Attempt(addr: Service, nTime: int)
      requires Valid()
      modifies this`mapInfo
      ensures Valid()
      ensures var id := Lookup(old(Tables()), addr);
              Tables() == if id == -1 then old(Tables()) else
                SetInfo(old(Tables()), id, old(mapInfo)[id].(nLastTry := nTime, nAttempts := old(mapInfo)[id].nAttempts + 1))
      ensures TimesOk(old(mapInfo)) ==> (TimesOk(mapInfo) <==> Lookup(old(Tables()), addr) == -1 || nTime >= 0)
    {
      hide Sound, Mirrors;
      var nId := Find(addr);
      if nId == -1 {
        return;
      }
      if TimesOk(mapInfo) {
        SetTimesIff(mapInfo, nId, mapInfo[nId].(nLastTry := nTime, nAttempts := mapInfo[nId].nAttempts + 1));
      }
      Touch(nId, mapInfo[nId].(nLastTry := nTime, nAttempts := mapInfo[nId].nAttempts + 1));
    }

    /** Record that an address is connected now, at most every twenty minutes. */
    method Connected(addr: Service, nTime: int)
      requires Valid()
      modifies this`mapInfo
      ensures Valid()
      ensures var id := Lookup(old(Tables()), addr);
              Tables() == if id == -1 || nTime - old(mapInfo)[id].nTime <= 20 * 60 then old(Tables())
                          else SetInfo(old(Tables()), id, old(mapInfo)[id].(nTime := Time32(nTime)))
      ensures TimesOk(old(mapInfo)) ==> TimesOk(mapInfo)
    {
      hide Sound, Mirrors;
      var nId := Find(addr);
      if nId == -1 {
        return;
      }
      if nTime - mapInfo[nId].nTime > 20 * 60 {
        Touch(nId, mapInfo[nId].(nTime := Time32(nTime)));
      }
    }

    /** Refresh a known entry, and decide whether it may get another place in the new table. */
    method Refresh(nId: int, addr: Address, nTimePenalty: int, now: int, draw: nat) returns (more: bool)
      requires Valid() && nId in mapInfo
      modifies this`mapInfo
      ensures Valid() && Tables() == SetInfo(old(Tables()), nId, Refreshed(old(mapInfo)[nId], addr, nTimePenalty, now))
      ensures more ==> !mapInfo[nId].fInTried && 0 < mapInfo[nId].nRefCount < NEW_BUCKETS_PER_ADDRESS
      ensures more <==> AsksForPlace(mapInfo[nId], addr, draw)
    {
      hide Sound, Mirrors;
      Touch(nId, Refreshed(mapInfo[nId], addr, nTimePenalty, now));
      var info := mapInfo[nId];
      if addr.nTime == 0 || (info.nTime != 0 && addr.nTime <= info.nTime) {
        return false;
      }
      if info.fInTried {
        return false;
      }
      RefsKnown(Tables(), nId);
      if info.nRefCount == NEW_BUCKETS_PER_ADDRESS {
        return false;
      }
      var nFactor := 1;
      for n := 0 to info.nRefCount
        invariant nFactor == Pow2(n)
      {
        nFactor := nFactor * 2;
      }
      more := !(nFactor > 1 && draw % nFactor != 0);
    }

    /** Enroll a new address, counted but in no bucket yet. */
    method Enroll(addr: Address, source: NetAddr, nTimePenalty: int) returns (nId: int)
      requires Shaped()
      modifies this
      ensures Shaped() && nId == old(nIdCount) && Tables() == Enrolled(old(Tables()), addr, source, nTimePenalty)
    {
      hide Mirrors;
      nId := Create(addr, source);
      mapInfo := mapInfo[nId := mapInfo[nId].(nTime := Time32(Max(0, mapInfo[nId].nTime - nTimePenalty)))];
      nNew := nNew + 1;
    }

    /** Learn of an address. Tried entries keep their places, and only terrible entries with a single reference
        are forgotten; a new address stays exactly if its slot is open to it. */
    method Add(addr: Address, routable: bool, source: NetAddr, nTimePenalty: int, now: int, draw: nat) returns (fNew: bool)
      requires Valid()
      modifies this, vvNew
      ensures Valid() && fNew == (routable && addr.service.ip !in old(mapAddr))
      ensures !routable ==> Tables() == old(Tables())
      ensures routable && addr.service.ip in old(mapAddr) ==> (
                var id := old(mapAddr)[addr.service.ip];
                && id in old(mapInfo) && id in mapInfo
                && (var info := Refreshed(old(mapInfo)[id], addr, nTimePenalty, now);
                    var s := NewSlot(hashes, info.addr, NewBucket(hashes, info.addr, source));
                    && Settled(old(mapInfo)[id := info], mapInfo, id, now)
                    && news == if AsksForPlace(info, addr, draw) && MayTake(old(Tables()), id, s, now) then old(news)[s := id] else old(news)))
      ensures fNew ==> (
                var id := old(nIdCount);
                var s := NewSlot(hashes, addr.service, NewBucket(hashes, addr.service, source));
                && Settled(old(mapInfo)[id := FirstInfo(addr, source, |old(vRandom)|, nTimePenalty)], mapInfo, id, now)
                && (id in mapInfo <==> SlotOpen(old(Tables()), s, now))
                && news == if id in mapInfo then old(news)[s := id] else old(news))
      ensures tried == old(tried)
      ensures TimesOk(old(mapInfo)) ==> TimesOk(mapInfo)
    {
      hide Sound, Mirrors, Settled, IsTerrible, NewSlot, Refreshed, TimesOk;
      if !routable {
        return false;
      }
      ghost var b := Tables();
      var nId: int;
      fNew := addr.service.ip !in mapAddr;
      if fNew {
        EnrollKeeps(b, addr, source, nTimePenalty);
        nId := Enroll(addr, source, nTimePenalty);
      } else {
        KnownEntry(b, addr.service.ip);
        nId := mapAddr[addr.service.ip];
        var more := Refresh(nId, addr, nTimePenalty, now, draw);
        if !more {
          SettleNothing(mapInfo, nId, now);
          if TimesOk(b.mapInfo) {
            RefreshedTimes(b.mapInfo, mapInfo, nId, addr, nTimePenalty, now);
          }
          return;
        }
        LimboShrinks(Tables(), {}, {nId}, 0);
        ghost var info := mapInfo[nId];
        RefreshedTakes(b, nId, info, NewSlot(hashes, info.addr, NewBucket(hashes, info.addr, source)), now);
      }
      Place(nId, source, now);
      if TimesOk(b.mapInfo) {
        if fNew {
          EnrolledTimes(b.mapInfo, mapInfo, nId, addr, source, |b.vRandom|, nTimePenalty, now);
        } else {
          RefreshedTimes(b.mapInfo, mapInfo, nId, addr, nTimePenalty, now);
        }
      }
    }

    /** Swap the next place of vRandom with a random later one. */
    method Draw(n: nat, draw: nat) returns (nId: int)
      requires Valid() && n < |vRandom|
      modifies this`mapInfo, this`vRandom
      ensures Valid() && OnlyMoved(old(mapInfo), mapInfo) && |vRandom| == |old(vRandom)|
      ensures vRandom[..n] == old(vRandom)[..n] && vRandom[n] == nId && nId in mapInfo
    {
      hide Sound, Mirrors, OnlyMoved, RandomOk;
      var nRndPos := draw % (|vRandom| - n) + n;
      DrawKeeps(Tables(), n, nRndPos);
      SwapRandom(n, nRndPos);
      nId := vRandom[n];
    }

    /** Draw one more entry, and keep its address unless it is terrible. */
    method GatherOne(n: nat, draw: nat, now: int, vAddr: seq<Service>, ghost infos: map<int, Info>) returns (more: seq<Service>)
      requires Valid() && n < |vRandom| && OnlyMoved(infos, mapInfo) && Gathered(infos, vRandom[..n], now, vAddr)
      modifies this`mapInfo, this`vRandom
      ensures Valid() && OnlyMoved(infos, mapInfo) && |vRandom| == |old(vRandom)|
      ensures Gathered(infos, vRandom[..n + 1], now, more) && |vAddr| <= |more| <= |vAddr| + 1
    {
      hide Sound, Mirrors, IsTerrible;
      ghost var before := vRandom[..n];
      more := vAddr;
      var nId := Draw(n, draw);
      SameTerrible(infos[nId], mapInfo[nId], now);
      assert vRandom[..n + 1] == before + [nId];
      GatherStep(infos, before, now, vAddr, nId);
      if !IsTerrible(mapInfo[nId], now) {
        more := more + [mapInfo[nId].addr];
      }
    }

    /** Gather random addresses: each once, none terrible, at most 23 per cent of all and 2500; if fewer than
        that come back, they are all there are. The tables only change places. */
    method GetAddr(draws: nat -> nat, now: int) returns (vAddr: seq<Service>)
      requires Valid()
      modifies this`mapInfo, this`vRandom
      ensures Valid() && OnlyMoved(old(mapInfo), mapInfo) && |vRandom| == |old(vRandom)|
      ensures |vAddr| <= GETADDR_MAX && |vAddr| <= GETADDR_MAX_PCT * |vRandom| / 100 && Distinct(vAddr)
      ensures forall a :: a in vAddr ==> Presentable(old(mapInfo), mapAddr, a, now)
      ensures |vAddr| < GETADDR_MAX && |vAddr| < GETADDR_MAX_PCT * |vRandom| / 100 ==>
                forall id :: id in old(mapInfo) && Fit(old(mapInfo)[id], now) ==> old(mapInfo)[id].addr in vAddr
      ensures TimesOk(old(mapInfo)) ==> TimesOk(mapInfo)
    {
      hide Sound, Mirrors, IsTerrible, Fit, AddrOk, OnlyMoved, Gathered, Presentable;
      var nNodes := GETADDR_MAX_PCT * |vRandom| / 100;
      if nNodes > GETADDR_MAX {
        nNodes := GETADDR_MAX;
      }
      ghost var infos, b := mapInfo, Tables();
      GatherStart(infos, now);
      vAddr := [];
      var n := 0;
      while n < |vRandom| && |vAddr| < nNodes
        invariant Valid() && OnlyMoved(infos, mapInfo) && |vRandom| == |old(vRandom)|
        invariant n <= |vRandom| && |vAddr| <= nNodes
        invariant Gathered(infos, vRandom[..n], now, vAddr)
      {
        vAddr := GatherOne(n, draws(n), now, vAddr, infos);
        n := n + 1;
      }
      GatherDone(b, Tables(), n, now, vAddr);
      if TimesOk(infos) {
        MovedTimes(infos, mapInfo);
      }
    }

    // --- the self-check --------------------------------------------------------------------------

    /** Test one entry. Looking its address up registers it when it is missing. */
    method CheckEntry(n: int, ghost b: Book) returns (err: int)
      requires n in mapInfo && Mending(b, Tables())
      modifies this`mapAddr
      ensures err == 0 <==> EntryPasses(Mended(b), n)
      ensures err == 0 ==> Mending(b, Tables()) && (n == 0 || old(Tables()) == Mended(b) ==> Tables() == Mended(b))
    {
      var info := mapInfo[n];
      if info.fInTried {
        if info.nLastSuccess == 0 {
          return -1;
        }
        if info.nRefCount != 0 {
          return -2;
        }
      } else {
        if info.nRefCount < 0 || info.nRefCount > NEW_BUCKETS_PER_ADDRESS {
          return -3;
        }
        if info.nRefCount == 0 {
          return -4;
        }
      }
      if info.addr.ip !in mapAddr {
        mapAddr := mapAddr[info.addr.ip := 0];
      }
      if mapAddr[info.addr.ip] != n {
        return -5;
      }
      if info.nRandomPos < 0 || info.nRandomPos >= |vRandom| || vRandom[info.nRandomPos] != n {
        return -14;
      }
      if info.nLastTry < 0 {
        return -6;
      }
      if info.nLastSuccess < 0 {
        return -8;
      }
      return 0;
    }

    /** Test all entries and gather the tried ones and the claimed reference counts of the others. */
    method CheckEntries(ghost b: Book) returns (err: int, setTried: set<int>, mapNew: map<int, int>)
      requires Tables() == b
      modifies this`mapAddr
      ensures err == 0 <==> EntriesPass(Mended(b))
      ensures err == 0 ==> Tables() == Mended(b) && setTried == TriedIds(mapInfo) && Claims(mapInfo, mapNew)
    {
      hide EntryPasses, Collected, Claims, TriedIds;
      setTried, mapNew := {}, map[];
      var todo := mapInfo.Keys;
      ghost var done: set<int> := {};
      CollectStart(mapInfo);
      while todo != {}
        invariant Mending(b, Tables()) && todo <= mapInfo.Keys && done == mapInfo.Keys - todo
        invariant AllPass(Mended(b), done)
        invariant 0 in done ==> Tables() == Mended(b)
        invariant Collected(mapInfo, done, setTried, mapNew)
        decreases |todo|
      {
        var n := AnyOf(todo);
        err := CheckEntry(n, b);
        if err != 0 {
          return;
        }
        CollectOne(mapInfo, done, setTried, mapNew, n);
        if mapInfo[n].fInTried {
          setTried := setTried + {n};
        } else {
          mapNew := mapNew[n := mapInfo[n].nRefCount];
        }
        todo, done := todo - {n}, done + {n};
      }
      CollectEnd(mapInfo, done, setTried, mapNew);
      err := 0;
    }

    /** Test one slot of the tried table. */
    method CheckTriedSlot(n: int, i: int, rest: set<int>) returns (err: int, rest': set<int>)
      requires Shaped() && 0 <= n < TRIED_BUCKET_COUNT && 0 <= i < BUCKET_SIZE && TriedSoFar(Tables(), rest, n, i)
      ensures err == 0 ==> TriedSoFar(Tables(), rest', n, i + 1)
      ensures err != 0 ==> !TriedSlotsPass(Tables())
    {
      hide TriedSoFar;
      rest' := rest;
      if vvTried[n, i] != -1 {
        TriedOccupied(Tables(), rest, n, i);
        if vvTried[n, i] !in rest {
          return -11, rest;
        }
        AwaitedAreTried(Tables(), rest, n, i, vvTried[n, i]);
        if TriedBucket(hashes, mapInfo[vvTried[n, i]].addr) != n {
          return -17, rest;
        }
        if BucketPosition(hashes, false, n, mapInfo[vvTried[n, i]].addr) != i {
          return -18, rest;
        }
        rest' := rest - {vvTried[n, i]};
      } else {
        TriedFree(Tables(), rest, n, i);
      }
      err := 0;
    }

    /** Test the tried table; what is left over are the tried entries that are not in it. */
    method CheckTried(setTried: set<int>) returns (err: int, rest: set<int>)
      requires Shaped() && setTried == TriedIds(mapInfo)
      ensures err == 0 <==> TriedSlotsPass(Tables())
      ensures err == 0 ==> (rest == {} <==> TriedCovered(Tables()))
    {
      hide TriedSoFar, TriedSlotsPass, TriedCovered, TriedIds;
      rest := setTried;
      MirrorsInTable();
      TriedStart(Tables());
      for n := 0 to TRIED_BUCKET_COUNT
        invariant TriedSoFar(Tables(), rest, n, 0)
      {
        for i := 0 to BUCKET_SIZE
          invariant TriedSoFar(Tables(), rest, n, i)
        {
          err, rest := CheckTriedSlot(n, i, rest);
          if err != 0 {
            return;
          }
        }
        TriedRow(Tables(), rest, n);
      }
      TriedEnd(Tables(), rest);
      err := 0;
    }

    /** Test one slot of the new table. */
    method CheckNewSlot(n: int, i: int, left: map<int, int>) returns (err: int, left': map<int, int>)
      requires Shaped() && 0 <= n < NEW_BUCKET_COUNT && 0 <= i < BUCKET_SIZE && NewSoFar(Tables(), left, n, i)
      ensures err == 0 ==> NewSoFar(Tables(), left', n, i + 1)
      ensures err != 0 ==> !(NewSlotsPass(Tables()) && RefsExact(Tables()))
    {
      hide NewSoFar, RefsExact;
      left' := left;
      if vvNew[n, i] != -1 {
        if vvNew[n, i] !in left {
          NewTooMany(Tables(), left, n, i);
          return -12, left;
        }
        LeftAreNew(Tables(), left, n, i, vvNew[n, i]);
        if BucketPosition(hashes, true, n, mapInfo[vvNew[n, i]].addr) != i {
          assert !NewSlotPasses(Tables(), (n, i));
          return -19, left;
        }
        NewOccupied(Tables(), left, n, i);
        left' := OneTaken(left, vvNew[n, i]);
      } else {
        NewFree(Tables(), left, n, i);
      }
      err := 0;
    }

    /** Test the new table; what is left over are claimed references that are not in it. */
    method CheckNew(mapNew: map<int, int>) returns (err: int, left: map<int, int>)
      requires Shaped() && EntriesPass(Tables()) && Claims(mapInfo, mapNew)
      ensures err == 0 ==> NewSlotsPass(Tables()) && (left == map[] <==> RefsExact(Tables()))
      ensures err != 0 ==> !(NewSlotsPass(Tables()) && RefsExact(Tables()))
    {
      hide NewSoFar, NewSlotsPass, RefsExact, Claims, EntriesPass;
      left := mapNew;
      MirrorsInTable();
      NewStart(Tables(), mapNew);
      for n := 0 to NEW_BUCKET_COUNT
        invariant NewSoFar(Tables(), left, n, 0)
      {
        for i := 0 to BUCKET_SIZE
          invariant NewSoFar(Tables(), left, n, i)
        {
          err, left := CheckNewSlot(n, i, left);
          if err != 0 {
            return;
          }
        }
        NewRow(Tables(), left, n);
      }
      NewEnd(Tables(), left);
      err := 0;
    }

    lemma MirrorsInTable()
      requires Shaped()
      ensures InTable(tried, TRIED_BUCKET_COUNT) && InTable(news, NEW_BUCKET_COUNT)
    {
    }

    /** The self-check finds nothing exactly when the tables are consistent with sensible times, up to the missing
        address of entry zero, which it registers. */
    method Check(keyIsNull: bool) returns (err: int)
      requires Shaped() && Unchecked(Tables())
      modifies this`mapAddr
      ensures err == 0 <==> !keyIsNull && Healthy(Mended(old(Tables())))
      ensures err == 0 ==> Tables() == Mended(old(Tables()))
    {
      hide Healthy, Mended, Unchecked, EntriesPass, TriedSlotsPass, TriedCovered, NewSlotsPass, RefsExact, TriedIds, NewIds, InTable;
      ghost var b := Tables();
      MirrorsInTable();
      MendedUnchecked(b);
      MendedSame(b);
      PassesIff(Mended(b));
      if |vRandom| != nTried + nNew {
        return -7;
      }
      var setTried, mapNew, left;
      err, setTried, mapNew := CheckEntries(b);
      if err != 0 {
        return;
      }
      ClaimsCount(mapInfo, mapNew);
      if |setTried| != nTried {
        return -9;
      }
      if |mapNew| != nNew {
        return -10;
      }
      err, setTried := CheckTried(setTried);
      if err != 0 {
        return;
      }
      err, left := CheckNew(mapNew);
      if err != 0 {
        return;
      }
      if |setTried| != 0 {
        return -13;
      }
      if |left| != 0 {
        return -15;
      }
      if keyIsNull {
        return -16;
      }
      return 0;
    }
  }
}
