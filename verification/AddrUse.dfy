/** What the address manager's operations come to together, with the times and counts written out. */
module AddrUse {
  import opened AddrBook
  import opened AddrMan

  const MINUTE := 60
  const THIRTY_DAYS := 30 * 24 * 60 * 60

  /** An answer that reached neither of its two limits. */
  ghost predicate BelowCaps(vAddr: seq<Service>, size: nat) { |vAddr| < 2500 && |vAddr| < 23 * size / 100 }

  /** An address that was just marked as reachable is in every answer that is not full, if it was seen within thirty days
      and not more than ten minutes ahead of the clock. */
  method GoodIsShown(m: CAddrMan, addr: Service, nTime: int, nRnd: nat, draws: nat -> nat, now: int) returns (vAddr: seq<Service>)
    requires m.Valid() && Lookup(m.Tables(), addr) != -1
    requires var seen := m.mapInfo[Lookup(m.Tables(), addr)].nTime; 0 < seen <= now + 10 * MINUTE && now - seen <= THIRTY_DAYS
    modifies m, m.vvTried, m.vvNew
    ensures m.Valid() && (BelowCaps(vAddr, |m.vRandom|) ==> addr in vAddr)
  {
    hide Sound, Mirrors, TimesOk, OnlyMoved, Reshuffled, TriedSlot;
    ghost var id := Lookup(m.Tables(), addr);
    m.Good(addr, nTime, nRnd);
    assert m.mapInfo[id].addr == addr && Fit(m.mapInfo[id], now);
    vAddr := m.GetAddr(draws, now);
  }

  /** An address that never answered is not shown after three attempts, once the last is more than a minute ago. */
  method FailingIsHidden(m: CAddrMan, addr: Service, first: int, second: int, third: int, draws: nat -> nat, now: int)
      returns (vAddr: seq<Service>)
    requires m.Valid() && Lookup(m.Tables(), addr) != -1 && now - third > MINUTE
    requires var info := m.mapInfo[Lookup(m.Tables(), addr)]; info.nLastSuccess == 0 && info.nAttempts >= 0
    modifies m`mapInfo, m`vRandom
    ensures m.Valid() && addr !in vAddr
  {
    hide Sound, Mirrors, TimesOk, OnlyMoved;
    ghost var id := Lookup(m.Tables(), addr);
    m.Attempt(addr, first);
    m.Attempt(addr, second);
    m.Attempt(addr, third);
    assert m.mapInfo[id].nAttempts >= 3 && !Fit(m.mapInfo[id], now);
    vAddr := m.GetAddr(draws, now);
  }

  /** An address not seen for more than thirty days, or never, and not tried within the last minute, is not shown. */
  method StaleIsHidden(m: CAddrMan, addr: Service, draws: nat -> nat, now: int) returns (vAddr: seq<Service>)
    requires m.Valid() && Lookup(m.Tables(), addr) != -1
    requires var info := m.mapInfo[Lookup(m.Tables(), addr)];
             (info.nTime == 0 || now - info.nTime > THIRTY_DAYS) && (info.nLastTry == 0 || now - info.nLastTry > MINUTE)
    modifies m`mapInfo, m`vRandom
    ensures m.Valid() && addr !in vAddr
  {
    hide Sound, Mirrors, TimesOk, OnlyMoved;
    vAddr := m.GetAddr(draws, now);
  }

  /** A routable address that is new, recent, and whose slot is free is shown in every answer that is not full. */
  method AddedIsShown(m: CAddrMan, addr: Address, source: NetAddr, penalty: nat, draw: nat, draws: nat -> nat, now: int)
      returns (vAddr: seq<Service>)
    requires m.Valid() && addr.service.ip !in m.mapAddr && addr.nTime < 0x1_0000_0000
    requires 0 < addr.nTime - penalty <= now + 10 * MINUTE && now - (addr.nTime - penalty) <= THIRTY_DAYS
    requires NewSlot(m.hashes, addr.service, NewBucket(m.hashes, addr.service, source)) !in m.news
    modifies m, m.vvNew
    ensures m.Valid() && (BelowCaps(vAddr, |m.vRandom|) ==> addr.service in vAddr)
    ensures var id := old(m.nIdCount);
            && id in m.mapInfo && m.mapInfo[id].nServices == addr.nServices && m.mapInfo[id].source == source
            && m.mapInfo[id].nTime == addr.nTime - penalty && !m.mapInfo[id].fInTried
  {
    hide Sound, Mirrors, TimesOk, NewSlot;
    ghost var id := m.nIdCount;
    var fNew := m.Add(addr, true, source, penalty, now, draw);
    assert id in m.mapInfo && m.mapInfo[id].addr == addr.service && Fit(m.mapInfo[id], now);
    vAddr := m.GetAddr(draws, now);
  }

  /** An address tried within the last minute loses no place to another one, unless it has more than one and the other
      is new. */
  method TriedKeepsPlaces(m: CAddrMan, k: int, addr: Address, routable: bool, source: NetAddr, penalty: int, now: int, draw: nat)
      returns (fNew: bool)
    requires m.Valid() && k in m.mapInfo && m.mapInfo[k].nLastTry != 0 && now - m.mapInfo[k].nLastTry <= MINUTE
    modifies m, m.vvNew
    ensures m.Valid()
    ensures !(fNew && old(m.mapInfo)[k].nRefCount > 1) ==> forall s :: s in old(m.news) && old(m.news)[s] == k ==> s in m.news && m.news[s] == k
  {
    hide Sound, Mirrors, TimesOk, Settled, NewSlot, IsTerrible, Fit;
    ghost var b := m.Tables();
    RefsPositive(b);
    RecentFit(b.mapInfo[k], now);
    if addr.service.ip in b.mapAddr {
      KnownEntry(b, addr.service.ip);
    }
    fNew := m.Add(addr, routable, source, penalty, now, draw);
  }

  lemma RecentFit(info: Info, now: int)
    requires info.nLastTry != 0 && now - info.nLastTry <= MINUTE
    ensures !IsTerrible(info, now)
  {
  }

  /** Entries of the new table have a reference. */
  lemma RefsPositive(b: Book)
    requires Consistent(b)
    ensures forall id :: id in b.mapInfo && !b.mapInfo[id].fInTried ==> b.mapInfo[id].nRefCount > 0
    ensures forall s :: s in b.news ==> b.news[s] in b.mapInfo && b.news[s] < b.nIdCount
  {
    assert forall id :: id in b.mapInfo ==> RefOk(b.mapInfo[id], |Refs(b.news, id)|, false);
  }
}
