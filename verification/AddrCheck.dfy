/**
 The address manager's self-check: what it looks at, and that passing it is the same as being
 consistent, once an entry numbered zero has got its address registered.
 */
module AddrCheck {
  import opened AddrBook

  /** The tests on one entry. */
  predicate EntryPasses(b: Book, id: int)
    requires id in b.mapInfo
  {
    var info := b.mapInfo[id];
    && (if info.fInTried then info.nLastSuccess != 0 && info.nRefCount == 0
        else 0 < info.nRefCount <= NEW_BUCKETS_PER_ADDRESS)
    && info.addr.ip in b.mapAddr && b.mapAddr[info.addr.ip] == id
    && 0 <= info.nRandomPos < |b.vRandom| && b.vRandom[info.nRandomPos] == id
    && info.nLastTry >= 0 && info.nLastSuccess >= 0
  }

  /** Some of the entries pass. */
  ghost predicate AllPass(b: Book, ids: set<int>)
    requires ids <= b.mapInfo.Keys
  {
    forall id :: id in ids ==> EntryPasses(b, id)
  }

  predicate EntriesPass(b: Book) { forall id :: id in b.mapInfo ==> EntryPasses(b, id) }

  ghost predicate SizesPass(b: Book) {
    |b.vRandom| == b.nTried + b.nNew && |TriedIds(b.mapInfo)| == b.nTried && |NewIds(b.mapInfo)| == b.nNew
  }

  /** The tests on one occupied slot. */
  predicate TriedSlotPasses(b: Book, s: Slot)
    requires s in b.tried
  {
    var id := b.tried[s];
    id in b.mapInfo && b.mapInfo[id].fInTried && s == TriedSlot(b.hashes, b.mapInfo[id].addr)
  }

  predicate NewSlotPasses(b: Book, s: Slot)
    requires s in b.news
  {
    var id := b.news[s];
    id in b.mapInfo && !b.mapInfo[id].fInTried && s == NewSlot(b.hashes, b.mapInfo[id].addr, s.0)
  }

  predicate TriedSlotsPass(b: Book) { forall s :: s in b.tried ==> TriedSlotPasses(b, s) }
  predicate NewSlotsPass(b: Book) { forall s :: s in b.news ==> NewSlotPasses(b, s) }

  /** Every tried entry is in the tried table. */
  ghost predicate TriedCovered(b: Book) { forall id :: id in TriedIds(b.mapInfo) ==> exists s :: s in b.tried && b.tried[s] == id }

  /** Every new entry is referred to as often as it says. */
  ghost predicate RefsExact(b: Book) { forall id :: id in NewIds(b.mapInfo) ==> |Refs(b.news, id)| == b.mapInfo[id].nRefCount }

  ghost predicate Passes(b: Book) {
    EntriesPass(b) && SizesPass(b) && TriedSlotsPass(b) && TriedCovered(b) && NewSlotsPass(b) && RefsExact(b)
  }

  /** What the check does not look at: ids are below the counter, and registered addresses are those of entries. */
  predicate Unchecked(b: Book) {
    && IdsOk(b.mapInfo, b.nIdCount)
    && (forall a :: a in b.mapAddr ==> b.mapAddr[a] in b.mapInfo && b.mapInfo[b.mapAddr[a]].addr.ip == a)
  }

  predicate InTable(table: map<Slot, int>, rows: int) { forall s :: s in table ==> 0 <= s.0 < rows && 0 <= s.1 < BUCKET_SIZE }

  // --- passing is being consistent ----------------------------------------------------------

  lemma KindsCount(m: map<int, Info>)
    ensures |m.Keys| == |TriedIds(m)| + |NewIds(m)|
  {
    forall id
      ensures id in m.Keys <==> id in TriedIds(m) + NewIds(m)
    {
    }
    assert m.Keys == TriedIds(m) + NewIds(m) && TriedIds(m) !! NewIds(m);
  }

  lemma Pick<T>(s: set<T>) returns (x: T)
    requires s != {}
    ensures x in s
  {
    x :| x in s;
  }

  ghost function Places(m: map<int, Info>, ids: set<int>): set<int>
    requires ids <= m.Keys
  {
    set id | id in ids :: m[id].nRandomPos
  }

  predicate KnowsPlace(m: map<int, Info>, v: seq<int>) {
    forall id :: id in m ==> 0 <= m[id].nRandomPos < |v| && v[m[id].nRandomPos] == id
  }

  lemma {:induction false} PlacesCount(m: map<int, Info>, v: seq<int>, ids: set<int>)
    requires KnowsPlace(m, v) && ids <= m.Keys
    ensures |Places(m, ids)| == |ids|
  {
    if ids != {} {
      var x := Pick(ids);
      PlacesCount(m, v, ids - {x});
      assert Places(m, ids) == Places(m, ids - {x}) + {m[x].nRandomPos};
      assert m[x].nRandomPos !in Places(m, ids - {x});
    }
  }

  lemma {:induction false} Within(places: set<int>, n: nat)
    requires forall i :: i in places ==> 0 <= i < n
    ensures |places| <= n && (|places| == n ==> forall i :: 0 <= i < n ==> i in places)
  {
    if n == 0 {
      if places != {} {
        var i := Pick(places);
        assert false;
      }
    } else {
      Within(places - {n - 1}, n - 1);
    }
  }

  /** As many places as entries, each entry at its own place: then every place is taken by its entry. */
  lemma EveryPlaceTaken(m: map<int, Info>, v: seq<int>)
    requires KnowsPlace(m, v) && |m.Keys| == |v|
    ensures RandomOk(m, v)
  {
    PlacesCount(m, v, m.Keys);
    Within(Places(m, m.Keys), |v|);
    forall i | 0 <= i < |v|
      ensures v[i] in m && m[v[i]].nRandomPos == i
    {
      assert i in Places(m, m.Keys);
    }
  }

  lemma RefsOfTried(b: Book, id: int)
    requires NewSlotsPass(b) && id in TriedIds(b.mapInfo)
    ensures Refs(b.news, id) == {}
  {
    forall s | s in b.news
      ensures b.news[s] != id
    {
      assert NewSlotPasses(b, s);
    }
  }

  lemma TriedMatches(b: Book)
    ensures TriedSlotsPass(b) && TriedCovered(b) <==> TriedOk(b.hashes, b.mapInfo, b.tried)
  {
    hide TriedSlot;
    if TriedSlotsPass(b) && TriedCovered(b) {
      forall id | id in b.mapInfo && b.mapInfo[id].fInTried
        ensures var s := TriedSlot(b.hashes, b.mapInfo[id].addr); s in b.tried && b.tried[s] == id
      {
        assert id in TriedIds(b.mapInfo);
        var s :| s in b.tried && b.tried[s] == id;
        assert TriedSlotPasses(b, s);
      }
      forall s | s in b.tried
        ensures b.tried[s] in b.mapInfo && b.mapInfo[b.tried[s]].fInTried
                && s == TriedSlot(b.hashes, b.mapInfo[b.tried[s]].addr)
      {
        assert TriedSlotPasses(b, s);
      }
    }
    if TriedOk(b.hashes, b.mapInfo, b.tried) {
      forall id | id in TriedIds(b.mapInfo)
        ensures exists s :: s in b.tried && b.tried[s] == id
      {
        var s := TriedSlot(b.hashes, b.mapInfo[id].addr);
        assert s in b.tried && b.tried[s] == id;
      }
    }
  }

  lemma NewMatches(b: Book)
    requires InTable(b.news, NEW_BUCKET_COUNT)
    ensures NewSlotsPass(b) <==> NewOk(b.hashes, b.mapInfo, b.news)
  {
    hide NewSlot;
    if NewSlotsPass(b) {
      forall s | s in b.news
        ensures b.news[s] in b.mapInfo && !b.mapInfo[b.news[s]].fInTried && s == NewSlot(b.hashes, b.mapInfo[b.news[s]].addr, s.0)
      {
        assert NewSlotPasses(b, s);
      }
    }
  }

  lemma PassesRefs(b: Book)
    requires EntriesPass(b) && NewSlotsPass(b) && RefsExact(b)
    ensures RefsOk(b.mapInfo, b.news, {})
  {
    hide Refs, NewSlotsPass;
    forall id | id in b.mapInfo
      ensures RefOk(b.mapInfo[id], |Refs(b.news, id)|, false)
    {
      assert EntryPasses(b, id);
      if b.mapInfo[id].fInTried {
        RefsOfTried(b, id);
      } else {
        assert id in NewIds(b.mapInfo);
      }
    }
  }

  lemma RefsPass(b: Book)
    requires Healthy(b)
    ensures EntriesPass(b) && RefsExact(b)
  {
    hide Refs;
    forall id | id in b.mapInfo
      ensures EntryPasses(b, id)
    {
      assert RefOk(b.mapInfo[id], |Refs(b.news, id)|, false);
    }
    forall id | id in NewIds(b.mapInfo)
      ensures |Refs(b.news, id)| == b.mapInfo[id].nRefCount
    {
      assert RefOk(b.mapInfo[id], |Refs(b.news, id)|, false);
    }
  }

  lemma PassesEntries(b: Book)
    requires EntriesPass(b)
    ensures KnowsPlace(b.mapInfo, b.vRandom) && TimesOk(b.mapInfo)
    ensures forall id :: id in b.mapInfo ==> b.mapInfo[id].addr.ip in b.mapAddr && b.mapAddr[b.mapInfo[id].addr.ip] == id
  {
    forall id | id in b.mapInfo
      ensures EntryPasses(b, id)
    {
    }
  }

  /** Passing the tests is the same as being consistent with sensible times. */
  lemma PassesIff(b: Book)
    requires Unchecked(b) && InTable(b.news, NEW_BUCKET_COUNT)
    ensures Passes(b) <==> Healthy(b)
  {
    hide EntriesPass, TriedSlotsPass, TriedCovered, NewSlotsPass, RefsExact, TriedOk, NewOk, RefsOk, TriedIds, NewIds, TimesOk, KnowsPlace, RandomOk, InTable;
    TriedMatches(b);
    NewMatches(b);
    if Passes(b) {
      PassesEntries(b);
      KindsCount(b.mapInfo);
      EveryPlaceTaken(b.mapInfo, b.vRandom);
      PassesRefs(b);
    }
    if Healthy(b) {
      RefsPass(b);
      SizeIsCounted(b);
    }
  }

  // --- the address of entry zero ----------------------------------------------------------

  /** Looking an unregistered address up registers it under the number zero. */
  function Mended(b: Book): (r: Book) {
    if 0 in b.mapInfo && b.mapInfo[0].addr.ip !in b.mapAddr then b.(mapAddr := b.mapAddr[b.mapInfo[0].addr.ip := 0]) else b
  }

  lemma MendedUnchecked(b: Book)
    requires Unchecked(b)
    ensures Unchecked(Mended(b))
  {
  }

  /** Consistent tables need no mending; without the address of entry zero they are inconsistent, and mended back. */
  lemma MendingOnlyEntryZero(b: Book)
    requires Consistent(b)
    ensures Mended(b) == b
    ensures 0 in b.mapInfo ==> (
      var c := b.(mapAddr := b.mapAddr - {b.mapInfo[0].addr.ip}); !Consistent(c) && Mended(c) == b)
  {
    hide RandomOk, IdsOk, TriedOk, NewOk, RefsOk, CountsOk;
    if 0 in b.mapInfo {
      var ip := b.mapInfo[0].addr.ip;
      assert (b.mapAddr - {ip})[ip := 0] == b.mapAddr;
    }
  }

  /** While entries are looked at, at most the address of entry zero was added. */
  ghost predicate Mending(b: Book, now: Book) { now == b || now == Mended(b) }

  // --- walking through the tables -----------------------------------------------------------

  /** Row by row: whether a slot was visited before another. */
  predicate Before(s: Slot, n: int, i: int) { s.0 < n || (s.0 == n && s.1 < i) }

  predicate HeldBefore(table: map<Slot, int>, id: int, n: int, i: int) {
    exists s :: s in table && Before(s, n, i) && table[s] == id
  }

  ghost predicate TriedSoFar(b: Book, rest: set<int>, n: int, i: int) {
    && (forall s :: s in b.tried && Before(s, n, i) ==> TriedSlotPasses(b, s))
    && (forall id :: id in rest <==> id in TriedIds(b.mapInfo) && !HeldBefore(b.tried, id, n, i))
  }

  lemma TriedStart(b: Book)
    requires InTable(b.tried, TRIED_BUCKET_COUNT)
    ensures TriedSoFar(b, TriedIds(b.mapInfo), 0, 0)
  {
  }

  lemma BeforeNext(table: map<Slot, int>, n: int, i: int)
    ensures forall s :: Before(s, n, i + 1) <==> Before(s, n, i) || s == (n, i)
  {
  }

  lemma TriedFree(b: Book, rest: set<int>, n: int, i: int)
    requires TriedSoFar(b, rest, n, i) && (n, i) !in b.tried
    ensures TriedSoFar(b, rest, n, i + 1)
  {
    hide TriedSlotPasses;
    BeforeNext(b.tried, n, i);
    forall id
      ensures HeldBefore(b.tried, id, n, i + 1) <==> HeldBefore(b.tried, id, n, i)
    {
    }
  }

  /** An occupied slot of the tried table passes exactly when its entry is still awaited and belongs there. */
  lemma TriedOccupied(b: Book, rest: set<int>, n: int, i: int)
    requires TriedSoFar(b, rest, n, i) && (n, i) in b.tried
    ensures var id := b.tried[(n, i)];
            && (TriedSlotPasses(b, (n, i)) <==> id in rest && (n, i) == TriedSlot(b.hashes, b.mapInfo[id].addr))
            && (TriedSlotPasses(b, (n, i)) ==> TriedSoFar(b, rest - {id}, n, i + 1))
  {
    hide TriedSlot;
    BeforeNext(b.tried, n, i);
    var id := b.tried[(n, i)];
    if TriedSlotPasses(b, (n, i)) {
      forall x
        ensures HeldBefore(b.tried, x, n, i + 1) <==> HeldBefore(b.tried, x, n, i) || x == id
      {
        if x == id {
          assert Before((n, i), n, i + 1);
        }
      }
    }
  }

  lemma TriedRow(b: Book, rest: set<int>, n: int)
    requires TriedSoFar(b, rest, n, BUCKET_SIZE) && InTable(b.tried, TRIED_BUCKET_COUNT)
    ensures TriedSoFar(b, rest, n + 1, 0)
  {
    hide TriedSlotPasses;
    assert forall s :: s in b.tried ==> (Before(s, n + 1, 0) <==> Before(s, n, BUCKET_SIZE));
  }

  lemma TriedEnd(b: Book, rest: set<int>)
    requires TriedSoFar(b, rest, TRIED_BUCKET_COUNT, 0) && InTable(b.tried, TRIED_BUCKET_COUNT)
    ensures TriedSlotsPass(b) && (rest == {} <==> TriedCovered(b))
  {
    hide TriedSlotPasses;
    assert forall s :: s in b.tried ==> Before(s, TRIED_BUCKET_COUNT, 0);
    forall id
      ensures HeldBefore(b.tried, id, TRIED_BUCKET_COUNT, 0) <==> exists s :: s in b.tried && b.tried[s] == id
    {
    }
    if TriedCovered(b) && rest != {} {
      var id := Pick(rest);
      assert false;
    }
    if rest == {} {
      forall id | id in TriedIds(b.mapInfo)
        ensures exists s :: s in b.tried && b.tried[s] == id
      {
        assert id !in rest;
      }
    }
  }

  ghost function RefsBefore(news: map<Slot, int>, id: int, n: int, i: int): set<Slot> {
    set s | s in news && news[s] == id && Before(s, n, i)
  }

  function Left(left: map<int, int>, id: int): int { if id in left then left[id] else 0 }

  ghost predicate NewSoFar(b: Book, left: map<int, int>, n: int, i: int) {
    && (forall s :: s in b.news && Before(s, n, i) ==> NewSlotPasses(b, s))
    && (forall id :: id in left ==> id in NewIds(b.mapInfo) && left[id] > 0)
    && (forall id :: id in NewIds(b.mapInfo) ==> Left(left, id) == b.mapInfo[id].nRefCount - |RefsBefore(b.news, id, n, i)|)
  }

  /** The reference counts that the entries claim. */
  ghost predicate Claims(m: map<int, Info>, mapNew: map<int, int>) {
    mapNew.Keys == NewIds(m) && forall id :: id in mapNew ==> mapNew[id] == m[id].nRefCount
  }

  lemma NewStart(b: Book, mapNew: map<int, int>)
    requires InTable(b.news, NEW_BUCKET_COUNT) && EntriesPass(b) && Claims(b.mapInfo, mapNew)
    ensures NewSoFar(b, mapNew, 0, 0)
  {
    forall id | id in NewIds(b.mapInfo)
      ensures id in mapNew && mapNew[id] > 0 && RefsBefore(b.news, id, 0, 0) == {}
    {
      assert id in mapNew.Keys;
      assert EntryPasses(b, id);
    }
    forall id | id in mapNew
      ensures id in NewIds(b.mapInfo)
    {
      assert id in mapNew.Keys;
    }
  }

  lemma NewFree(b: Book, left: map<int, int>, n: int, i: int)
    requires NewSoFar(b, left, n, i) && (n, i) !in b.news
    ensures NewSoFar(b, left, n, i + 1)
  {
    hide NewSlotPasses;
    BeforeNext(b.news, n, i);
    forall id
      ensures RefsBefore(b.news, id, n, i + 1) == RefsBefore(b.news, id, n, i)
    {
    }
  }

  lemma RefsBeforeNext(news: map<Slot, int>, id: int, n: int, i: int)
    requires (n, i) in news
    ensures |RefsBefore(news, id, n, i + 1)| == |RefsBefore(news, id, n, i)| + if news[(n, i)] == id then 1 else 0
  {
    BeforeNext(news, n, i);
    var was := RefsBefore(news, id, n, i);
    if news[(n, i)] == id {
      assert RefsBefore(news, id, n, i + 1) == was + {(n, i)} && (n, i) !in was;
    } else {
      assert RefsBefore(news, id, n, i + 1) == was;
    }
  }

  function OneTaken(left: map<int, int>, id: int): map<int, int>
    requires id in left
  {
    if left[id] - 1 == 0 then left - {id} else left[id := left[id] - 1]
  }

  /** An occupied slot that passes, of an entry with references left, uses one of them up. */
  lemma NewOccupied(b: Book, left: map<int, int>, n: int, i: int)
    requires NewSoFar(b, left, n, i) && (n, i) in b.news && b.news[(n, i)] in left && NewSlotPasses(b, (n, i))
    ensures NewSoFar(b, OneTaken(left, b.news[(n, i)]), n, i + 1)
  {
    hide NewSlotPasses, RefsBefore;
    BeforeNext(b.news, n, i);
    var id := b.news[(n, i)];
    var left' := OneTaken(left, id);
    forall x | x in NewIds(b.mapInfo)
      ensures Left(left', x) == b.mapInfo[x].nRefCount - |RefsBefore(b.news, x, n, i + 1)|
    {
      RefsBeforeNext(b.news, x, n, i);
    }
  }

  /** A slot that names a new entry with no references left: the entry claims too few. */
  lemma NewTooMany(b: Book, left: map<int, int>, n: int, i: int)
    requires NewSoFar(b, left, n, i) && (n, i) in b.news && b.news[(n, i)] !in left
    ensures !(NewSlotsPass(b) && RefsExact(b))
  {
    var id := b.news[(n, i)];
    if NewSlotsPass(b) && RefsExact(b) {
      assert NewSlotPasses(b, (n, i));
      assert id in NewIds(b.mapInfo);
      RefsBeforeNext(b.news, id, n, i);
      MoreRefs(RefsBefore(b.news, id, n, i + 1), Refs(b.news, id));
      assert false;
    }
  }

  lemma {:induction false} MoreRefs(a: set<Slot>, b: set<Slot>)
    requires a <= b
    ensures |a| <= |b|
  {
    if a != {} {
      var x :| x in a;
      MoreRefs(a - {x}, b - {x});
    }
  }

  lemma NewRow(b: Book, left: map<int, int>, n: int)
    requires NewSoFar(b, left, n, BUCKET_SIZE) && InTable(b.news, NEW_BUCKET_COUNT)
    ensures NewSoFar(b, left, n + 1, 0)
  {
    hide NewSlotPasses, NewIds;
    assert forall s :: s in b.news ==> (Before(s, n + 1, 0) <==> Before(s, n, BUCKET_SIZE));
    forall id
      ensures RefsBefore(b.news, id, n + 1, 0) == RefsBefore(b.news, id, n, BUCKET_SIZE)
    {
    }
  }

  lemma NewEnd(b: Book, left: map<int, int>)
    requires NewSoFar(b, left, NEW_BUCKET_COUNT, 0) && InTable(b.news, NEW_BUCKET_COUNT)
    ensures NewSlotsPass(b) && (left == map[] <==> RefsExact(b))
  {
    hide NewSlotPasses, NewIds;
    assert forall s :: s in b.news ==> Before(s, NEW_BUCKET_COUNT, 0);
    forall id
      ensures RefsBefore(b.news, id, NEW_BUCKET_COUNT, 0) == Refs(b.news, id)
    {
    }
    if RefsExact(b) {
      forall id | id in left
        ensures false
      {
      }
    }
  }

  lemma AwaitedAreTried(b: Book, rest: set<int>, n: int, i: int, id: int)
    requires TriedSoFar(b, rest, n, i) && id in rest
    ensures id in b.mapInfo && b.mapInfo[id].fInTried
  {
  }

  lemma LeftAreNew(b: Book, left: map<int, int>, n: int, i: int, id: int)
    requires NewSoFar(b, left, n, i) && id in left
    ensures id in b.mapInfo && !b.mapInfo[id].fInTried
  {
  }

  // --- gathering what the entries say -------------------------------------------------------

  ghost predicate Collected(m: map<int, Info>, done: set<int>, setTried: set<int>, mapNew: map<int, int>) {
    && done <= m.Keys
    && (forall id :: id in setTried <==> id in done && m[id].fInTried)
    && (forall id :: id in mapNew <==> id in done && !m[id].fInTried)
    && (forall id :: id in mapNew ==> mapNew[id] == m[id].nRefCount)
  }

  method AnyOf<T(==)>(s: set<T>) returns (x: T)
    requires s != {}
    ensures x in s
  {
    x :| x in s;
  }

  lemma CollectStart(m: map<int, Info>)
    ensures Collected(m, {}, {}, map[])
  {
  }

  lemma CollectOne(m: map<int, Info>, done: set<int>, setTried: set<int>, mapNew: map<int, int>, n: int)
    requires Collected(m, done, setTried, mapNew) && n in m && n !in done
    ensures if m[n].fInTried then Collected(m, done + {n}, setTried + {n}, mapNew)
            else Collected(m, done + {n}, setTried, mapNew[n := m[n].nRefCount])
  {
  }

  lemma CollectEnd(m: map<int, Info>, done: set<int>, setTried: set<int>, mapNew: map<int, int>)
    requires Collected(m, done, setTried, mapNew) && done == m.Keys
    ensures setTried == TriedIds(m) && Claims(m, mapNew)
  {
    forall id
      ensures (id in mapNew.Keys <==> id in NewIds(m)) && (id in setTried <==> id in TriedIds(m))
    {
    }
  }

  lemma ClaimsCount(m: map<int, Info>, mapNew: map<int, int>)
    requires Claims(m, mapNew)
    ensures |mapNew| == |NewIds(m)|
  {
    assert |mapNew| == |mapNew.Keys|;
  }

  lemma MendedSame(b: Book)
    ensures var c := Mended(b); c == b.(mapAddr := c.mapAddr)
  {
  }
}
