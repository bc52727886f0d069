/**
 The layered cache of unspent coins.

 A cache sits on another cache or, at the bottom, on the coin database. Every entry
 carries two flags: DIRTY (may differ from the view below) and FRESH (the view below has
 no unpruned entry). The flat meaning of a stack is one map that holds unpruned coins
 only, so that coins are compared modulo pruned entries.
 */
module CoinsCache {
  import opened Basics
  import opened Coins
  import opened Sums


  datatype CacheEntry = CacheEntry(coins: Coins, isDirty: bool, isFresh: bool)

  type CoinsMap = map<Txid, CacheEntry>

  /** The flat set of unspent coins. */
  type Utxo = map<Txid, Coins>

  /** What a flat set may hold: unpruned records without a spent tail. */
  predicate Live(u: Utxo) {
    forall t :: t in u ==> !u[t].IsPruned() && u[t].IsClean()
  }

  function Lookup(u: Utxo, t: Txid): (c: Coins) { if t in u then u[t] else NoCoins }

  /** Replace the record of one transaction; a pruned record is an absent one. */
  function Put(u: Utxo, t: Txid, c: Coins): (r: Utxo)
    ensures forall s :: s != t ==> (s in r <==> s in u) && (s in r ==> r[s] == u[s])
    ensures t in r <==> !c.IsPruned()
    ensures t in r ==> r[t] == c
  {
    if c.IsPruned() then u - {t} else u[t := c]
  }

  lemma PutLive(u: Utxo, t: Txid, c: Coins)
    requires Live(u) && c.IsClean()
    ensures Live(Put(u, t, c))
  {
  }

  /** Whether cached coins say the same as the view below, modulo pruned records. */
  predicate Agrees(c: Coins, below: Utxo, t: Txid) {
    if t in below then c == below[t] else c.IsPruned()
  }

  lemma PutAgreeing(u: Utxo, t: Txid, c: Coins)
    requires Live(u) && Agrees(c, u, t)
    ensures Put(u, t, c) == u
  {
  }

  /** The flags tell the truth about the view below. */
  predicate EntrySound(e: CacheEntry, below: Utxo, t: Txid) {
    && e.coins.IsClean()
    && (e.isFresh ==> t !in below)
    && (!e.isDirty ==> Agrees(e.coins, below, t))
  }

  predicate Sound(cache: CoinsMap, below: Utxo) {
    forall t :: t in cache ==> EntrySound(cache[t], below, t)
  }

  /** A cache laid over a flat set. */
  function Overlay(cache: CoinsMap, below: Utxo): (u: Utxo)
    ensures forall t :: t in cache ==> (t in u <==> !cache[t].coins.IsPruned())
    ensures forall t :: t in cache && t in u ==> u[t] == cache[t].coins
    ensures forall t :: t !in cache ==> (t in u <==> t in below)
    ensures forall t :: t !in cache && t in u ==> u[t] == below[t]
  {
    (below - cache.Keys) + map t | t in cache && !cache[t].coins.IsPruned() :: cache[t].coins
  }

  lemma SoundEmpty(u: Utxo)
    ensures Sound(map[], u)
  {
  }

  lemma OverlayEmpty(u: Utxo)
    ensures Overlay(map[], u) == u
  {
  }

  lemma OverlayLive(cache: CoinsMap, below: Utxo)
    requires Live(below) && Sound(cache, below)
    ensures Live(Overlay(cache, below))
  {
  }

  lemma OverlayWrite(cache: CoinsMap, below: Utxo, t: Txid, e: CacheEntry)
    ensures Overlay(cache[t := e], below) == Put(Overlay(cache, below), t, e.coins)
  {
    hide Overlay;
  }

  lemma OverlayErase(cache: CoinsMap, below: Utxo, t: Txid)
    requires t !in below
    ensures Overlay(cache - {t}, below) == Put(Overlay(cache, below), t, NoCoins)
  {
    hide Overlay;
  }

  // --- memory accounting -------------------------------------------------------

  ghost function UsageMap(cache: CoinsMap): map<Txid, int> {
    map t | t in cache :: DynamicUsage(cache[t].coins.vout)
  }

  ghost function TotalUsage(cache: CoinsMap): int { Sum(UsageMap(cache)) }

  ghost function UsageAt(cache: CoinsMap, t: Txid): int {
    if t in cache then DynamicUsage(cache[t].coins.vout) else 0
  }

  lemma UsageWrite(cache: CoinsMap, t: Txid, e: CacheEntry)
    ensures TotalUsage(cache[t := e]) == TotalUsage(cache) - UsageAt(cache, t) + DynamicUsage(e.coins.vout)
  {
    assert UsageMap(cache[t := e]) == UsageMap(cache)[t := DynamicUsage(e.coins.vout)];
    SumUpdate(UsageMap(cache), t, DynamicUsage(e.coins.vout));
  }

  lemma UsageErase(cache: CoinsMap, t: Txid)
    ensures TotalUsage(cache - {t}) == TotalUsage(cache) - UsageAt(cache, t)
  {
    assert UsageMap(cache - {t}) == UsageMap(cache) - {t};
    if t in cache {
      SumRemove(UsageMap(cache), t);
    } else {
      assert cache - {t} == cache;
    }
  }

  lemma UsageCovers(cache: CoinsMap, t: Txid)
    ensures 0 <= UsageAt(cache, t) <= TotalUsage(cache)
  {
    SumNonNegative(UsageMap(cache));
    if t in cache {
      SumBoundsElement(UsageMap(cache), t);
    }
  }

  // --- one entry -----------------------------------------------------------------

  lemma OverlayAgreeing(cache: CoinsMap, below: Utxo, t: Txid, e: CacheEntry)
    requires Live(below) && t !in cache && Agrees(e.coins, below, t)
    ensures Overlay(cache[t := e], below) == Overlay(cache, below)
  {
    hide Overlay;
  }

  /** Caching what the view below says changes nothing. */
  lemma RememberRefines(cache: CoinsMap, below: Utxo, t: Txid, c: Coins)
    requires Live(below) && Sound(cache, below) && t !in cache && Agrees(c, below, t) && c.IsClean()
    ensures var grown := cache[t := CacheEntry(c, false, c.IsPruned())];
      && Sound(grown, below)
      && Overlay(grown, below) == Overlay(cache, below)
      && TotalUsage(grown) == TotalUsage(cache) + DynamicUsage(c.vout)
  {
    var e := CacheEntry(c, false, c.IsPruned());
    OverlayAgreeing(cache, below, t, e);
    UsageWrite(cache, t, e);
  }

  lemma UncacheRefines(cache: CoinsMap, below: Utxo, t: Txid)
    requires Live(below) && Sound(cache, below) && t in cache && !cache[t].isDirty
    ensures Sound(cache - {t}, below)
    ensures Overlay(cache - {t}, below) == Overlay(cache, below)
    ensures TotalUsage(cache - {t}) == TotalUsage(cache) - DynamicUsage(cache[t].coins.vout)
  {
    OverlayAgreeing(cache - {t}, below, t, cache[t]);
    assert (cache - {t})[t := cache[t]] == cache;
    UsageErase(cache, t);
  }

  /** The entry that a closing modifier leaves behind, or none. */
  function Closed(cache: CoinsMap, t: Txid, c: Coins): (r: CoinsMap)
    requires t in cache
  {
    if cache[t].isFresh && c.IsPruned() then cache - {t} else cache[t := cache[t].(coins := c)]
  }

  lemma SoundAt(cache: CoinsMap, below: Utxo, t: Txid)
    requires Sound(cache, below) && t in cache
    ensures EntrySound(cache[t], below, t)
  {
  }

  lemma SoundWrite(cache: CoinsMap, below: Utxo, t: Txid, e: CacheEntry)
    requires Sound(cache, below) && EntrySound(e, below, t)
    ensures Sound(cache[t := e], below) && Sound(cache - {t}, below)
  {
    hide EntrySound;
  }

  /** Closing a modifier on a dirty entry writes the record through and keeps the flags sound. */
  lemma ClosedRefines(cache: CoinsMap, below: Utxo, t: Txid, c: Coins)
    requires Sound(cache, below) && t in cache && cache[t].isDirty && c.IsClean()
    ensures Sound(Closed(cache, t, c), below)
    ensures Overlay(Closed(cache, t, c), below) == Put(Overlay(cache, below), t, c)
    ensures TotalUsage(Closed(cache, t, c))
         == TotalUsage(cache) - UsageAt(cache, t) + (if t in Closed(cache, t, c) then DynamicUsage(c.vout) else 0)
  {
    hide Overlay, TotalUsage, Sound;
    assert EntrySound(cache[t], below, t) by {
      SoundAt(cache, below, t);
    }
    SoundWrite(cache, below, t, cache[t].(coins := c));
    if cache[t].isFresh && c.IsPruned() {
      OverlayErase(cache, below, t);
      UsageErase(cache, t);
    } else {
      OverlayWrite(cache, below, t, cache[t].(coins := c));
      UsageWrite(cache, t, cache[t].(coins := c));
    }
  }

  const NewEntry: CacheEntry := CacheEntry(NoCoins, true, true)

  /** What goes wrong otherwise: spending the new coins before a flush erases the entry and
      the old coins below are back. */
  lemma NewEntryResurrects(cache: CoinsMap, below: Utxo, t: Txid, spent: Coins)
    requires t in below && spent.IsPruned()
    ensures var after := Closed(cache[t := NewEntry], t, spent);
      t in Overlay(after, below) && Overlay(after, below)[t] == below[t]
  {
  }

  /** Creating an entry without looking below reads back as whatever is then written to it, for every record,
      exactly when the view below has no unpruned coins for it. */
  lemma NewEntryReadsIff(cache: CoinsMap, below: Utxo, t: Txid)
    requires Sound(cache, below)
    ensures (forall c: Coins :: c.IsClean() ==> Overlay(Closed(cache[t := NewEntry], t, c), below) == Put(Overlay(cache, below), t, c))
       <==> t !in below
  {
    hide Overlay, Put;
    if t in below {
      NewEntryResurrects(cache, below, t, NoCoins);
      assert Overlay(Closed(cache[t := NewEntry], t, NoCoins), below) != Put(Overlay(cache, below), t, NoCoins);
    } else {
      var entered := cache[t := NewEntry];
      SoundWrite(cache, below, t, NewEntry);
      OverlayWrite(cache, below, t, NewEntry);
      forall c: Coins | c.IsClean()
        ensures Overlay(Closed(entered, t, c), below) == Put(Overlay(cache, below), t, c)
      {
        ClosedRefines(entered, below, t, c);
        PutTwice(Overlay(cache, below), t, NoCoins, c);
      }
    }
  }

  lemma PutTwice(u: Utxo, t: Txid, c: Coins, d: Coins)
    ensures Put(Put(u, t, c), t, d) == Put(u, t, d)
  {
  }

  /** The new entry is accounted for as if it replaced nothing, which is exact exactly when
      the entry it replaces held no memory. */
  lemma NewEntryUsageIff(cache: CoinsMap, t: Txid, c: Coins)
    requires !c.IsPruned()
    ensures TotalUsage(Closed(cache[t := NewEntry], t, c)) == TotalUsage(cache) + DynamicUsage(c.vout)
       <==> UsageAt(cache, t) == 0
  {
    hide TotalUsage, DynamicUsage;
    UsageWrite(cache, t, CacheEntry(c, true, true));
    assert Closed(cache[t := NewEntry], t, c) == cache[t := CacheEntry(c, true, true)];
  }

  // --- one entry of a batch ----------------------------------------------------

  /** What writing one child entry does to the parent's own map. */
  function WriteEntry(ours: CoinsMap, t: Txid, e: CacheEntry): (r: CoinsMap) {
    if !e.isDirty then ours
    else if t !in ours then
      if e.isFresh && e.coins.IsPruned() then ours
      else ours[t := CacheEntry(e.coins, true, e.isFresh)]
    else if ours[t].isFresh && e.coins.IsPruned() then ours - {t}
    else ours[t := CacheEntry(e.coins, true, ours[t].isFresh)]
  }

  lemma WriteEntrySound(ours: CoinsMap, below: Utxo, t: Txid, e: CacheEntry)
    requires Sound(ours, below) && EntrySound(e, Overlay(ours, below), t)
    ensures Sound(WriteEntry(ours, t, e), below) && (t in ours ==> EntrySound(ours[t], below, t))
  {
    hide Overlay;
  }

  /** Writing a sound child entry keeps the parent sound and sets the parent's record of
      that transaction to the child's. */
  lemma WriteEntryRefines(ours: CoinsMap, below: Utxo, t: Txid, e: CacheEntry)
    requires Live(below) && Sound(ours, below)
    requires EntrySound(e, Overlay(ours, below), t)
    ensures Sound(WriteEntry(ours, t, e), below)
    ensures Overlay(WriteEntry(ours, t, e), below) == Put(Overlay(ours, below), t, e.coins)
  {
    hide Overlay, Sound, Live;
    var view := Overlay(ours, below);
    WriteEntrySound(ours, below, t, e);
    if !e.isDirty {
      OverlayLive(ours, below);
      PutAgreeing(view, t, e.coins);
    } else if t !in ours {
      if e.isFresh && e.coins.IsPruned() {
        assert Put(view, t, e.coins) == view;
      } else {
        OverlayWrite(ours, below, t, CacheEntry(e.coins, true, e.isFresh));
      }
    } else if ours[t].isFresh && e.coins.IsPruned() {
      OverlayErase(ours, below, t);
    } else {
      OverlayWrite(ours, below, t, CacheEntry(e.coins, true, ours[t].isFresh));
    }
  }

  /** After one entry is written the rest of the batch means the same as before. */
  lemma BatchStep(rest: CoinsMap, view: Utxo, t: Txid)
    requires t in rest && Sound(rest, view)
    ensures Sound(rest - {t}, Put(view, t, rest[t].coins))
    ensures Overlay(rest - {t}, Put(view, t, rest[t].coins)) == Overlay(rest, view)
  {
    hide Overlay, Put;
    var after := Put(view, t, rest[t].coins);
    forall s | s in rest - {t}
      ensures EntrySound((rest - {t})[s], after, s)
    {
      SoundAt(rest, view, s);
    }
    OverlayMoved(rest, view, t);
  }

  lemma OverlayMoved(rest: CoinsMap, view: Utxo, t: Txid)
    requires t in rest
    ensures Overlay(rest - {t}, Put(view, t, rest[t].coins)) == Overlay(rest, view)
  {
    hide Overlay, Put;
  }

  /** Collect a batch of changes: draining a sound cache into a flat set yields the overlay. */
  method CollectBatch(mapCoins: CoinsMap, below: Utxo) returns (batch: Utxo)
    requires Live(below) && Sound(mapCoins, below)
    ensures batch == Overlay(mapCoins, below) && Live(batch)
  {
    var rest := mapCoins;
    batch := below;
    while rest != map[]
      invariant Live(batch) && Sound(rest, batch)
      invariant Overlay(rest, batch) == Overlay(mapCoins, below)
      decreases |rest|
    {
      var t :| t in rest;
      BatchStep(rest, batch, t);
      RemoveShrinks(rest, t);
      PutLive(batch, t, rest[t].coins);
      if rest[t].isDirty {
        batch := Put(batch, t, rest[t].coins);
      } else {
        PutAgreeing(batch, t, rest[t].coins);
      }
      rest := rest - {t};
    }
    OverlayEmpty(batch);
  }

  predicate SameAt(a: CoinsMap, b: CoinsMap, t: Txid) { (t in a <==> t in b) && (t in a ==> a[t] == b[t]) }

  /** Every entry drained so far was written once, and nothing else was touched. */
  ghost predicate Drained(ours0: CoinsMap, mapCoins: CoinsMap, rest: CoinsMap, ours: CoinsMap) {
    && (forall t :: t in rest ==> t in mapCoins && rest[t] == mapCoins[t])
    && (forall t :: t in mapCoins && t !in rest ==> SameAt(ours, WriteEntry(ours0, t, mapCoins[t]), t))
    && (forall t :: t !in mapCoins || t in rest ==> SameAt(ours, ours0, t))
  }

  lemma DrainStep(ours0: CoinsMap, mapCoins: CoinsMap, rest: CoinsMap, ours: CoinsMap, t: Txid)
    requires Drained(ours0, mapCoins, rest, ours) && t in rest
    ensures Drained(ours0, mapCoins, rest - {t}, WriteEntry(ours, t, rest[t]))
  {
    hide WriteEntry;
    WriteEntryThere(ours, ours0, t, rest[t]);
    WriteEntryElsewhere(ours, t, rest[t]);
    var more := WriteEntry(ours, t, rest[t]);
    forall s | s in mapCoins && s !in rest - {t}
      ensures SameAt(more, WriteEntry(ours0, s, mapCoins[s]), s)
    {
      assert s != t ==> SameAt(more, ours, s);
    }
    forall s | s !in mapCoins || s in rest - {t}
      ensures SameAt(more, ours0, s)
    {
      assert SameAt(more, ours, s);
    }
  }

  lemma WriteEntryThere(a: CoinsMap, b: CoinsMap, t: Txid, e: CacheEntry)
    requires SameAt(a, b, t)
    ensures SameAt(WriteEntry(a, t, e), WriteEntry(b, t, e), t)
  {
  }

  lemma WriteEntryElsewhere(a: CoinsMap, t: Txid, e: CacheEntry)
    ensures forall s :: s != t ==> SameAt(WriteEntry(a, t, e), a, s)
  {
  }

  /** Drain a child's map into a parent's map, whatever order the entries come in. */
  method DrainInto(ours0: CoinsMap, usage0: nat, mapCoins: CoinsMap, ghost below: Utxo)
      returns (ours: CoinsMap, usage: nat)
    requires Live(below) && Sound(ours0, below) && usage0 == TotalUsage(ours0)
    requires Sound(mapCoins, Overlay(ours0, below))
    ensures Sound(ours, below) && usage == TotalUsage(ours)
    ensures Overlay(ours, below) == Overlay(mapCoins, Overlay(ours0, below))
    ensures Drained(ours0, mapCoins, map[], ours)
  {
    hide Overlay, Sound, TotalUsage, WriteEntry;
    var rest := mapCoins;
    ours, usage := ours0, usage0;
    while rest != map[]
      invariant Sound(ours, below) && usage == TotalUsage(ours)
      invariant Sound(rest, Overlay(ours, below))
      invariant Overlay(rest, Overlay(ours, below)) == Overlay(mapCoins, Overlay(ours0, below))
      invariant Drained(ours0, mapCoins, rest, ours)
      decreases |rest|
    {
      var t :| t in rest;
      DrainStep(ours0, mapCoins, rest, ours, t);
      SoundAt(rest, Overlay(ours, below), t);
      BatchStep(rest, Overlay(ours, below), t);
      WriteEntryRefines(ours, below, t, rest[t]);
      RemoveShrinks(rest, t);
      ours, usage := DrainOne(ours, usage, t, rest[t]);
      rest := rest - {t};
    }
    OverlayEmpty(Overlay(ours, below));
  }

  /** The branches of the batch loop, with their running memory total. */
  method DrainOne(ours0: CoinsMap, usage0: nat, t: Txid, e: CacheEntry)
      returns (ours: CoinsMap, usage: nat)
    requires usage0 == TotalUsage(ours0)
    ensures ours == WriteEntry(ours0, t, e) && usage == TotalUsage(ours)
  {
    ours, usage := ours0, usage0;
    if e.isDirty {
      UsageCovers(ours, t);
      if t !in ours {
        if !(e.isFresh && e.coins.IsPruned()) {
          UsageWrite(ours, t, CacheEntry(e.coins, true, e.isFresh));
          ours := ours[t := CacheEntry(e.coins, true, e.isFresh)];
          usage := usage + DynamicUsage(e.coins.vout);
        }
      } else if ours[t].isFresh && e.coins.IsPruned() {
        UsageErase(ours, t);
        usage := usage - DynamicUsage(ours[t].coins.vout);
        ours := ours - {t};
      } else {
        UsageWrite(ours, t, CacheEntry(e.coins, true, ours[t].isFresh));
        usage := usage - DynamicUsage(ours[t].coins.vout);
        usage := usage + DynamicUsage(e.coins.vout);
        ours := ours[t := CacheEntry(e.coins, true, ours[t].isFresh)];
      }
    }
  }

  // --- the coin database ---------------------------------------------------------

  class CoinsViewDB {
    var coins: Utxo
    var bestBlock: BlockHash

    constructor ()
      ensures coins == map[] && bestBlock == 0
    {
      coins, bestBlock := map[], 0;
    }

    method BatchWrite(mapCoins: CoinsMap, hashBlock: BlockHash)
      requires Live(coins) && Sound(mapCoins, coins)
      modifies this
      ensures coins == Overlay(mapCoins, old(coins)) && Live(coins)
      ensures bestBlock == if hashBlock != 0 then hashBlock else old(bestBlock)
    {
      var batch := CollectBatch(mapCoins, coins);
      coins := batch;
      if hashBlock != 0 {
        bestBlock := hashBlock;
      }
    }
  }

  // --- a cache ------------------------------------------------------------------

  /** An open modification: which entry, and how much memory it held before. */
  datatype Modifier = Modifier(txid: Txid, usage: nat)

  class CoinsViewCache {
    const db: CoinsViewDB
    const base: CoinsViewCache?  // null: the database itself is the base
    ghost const BaseRepr: set<object>
    ghost const depth: nat

    var hasModifier: bool
    var hashBlock: BlockHash
    var cacheCoins: CoinsMap
    var cachedCoinsUsage: nat

    /** The shape of the stack, which never changes. */
    ghost predicate Layered()
      decreases depth
    {
      && this !in BaseRepr && db in BaseRepr
      && (if base == null then BaseRepr == {db}
          else base.depth < depth && base.Layered() && base.db == db && BaseRepr == base.BaseRepr + {base})
    }

    ghost function Repr(): set<object> { BaseRepr + {this} }

    ghost function Below(): (u: Utxo)
      requires Layered()
      reads BaseRepr
      decreases depth, 0
    {
      if base == null then db.coins else base.View()
    }

    /** The flat meaning of this stack. */
    ghost function View(): (u: Utxo)
      requires Layered()
      reads BaseRepr, this
      decreases depth, 1
    {
      Overlay(cacheCoins, Below())
    }

    ghost function BestBelow(): BlockHash
      requires Layered()
      reads BaseRepr
      decreases depth, 0
    {
      if base == null then db.bestBlock else base.Best()
    }

    ghost function Best(): BlockHash
      requires Layered()
      reads BaseRepr, this
      decreases depth, 1
    {
      if hashBlock != 0 then hashBlock else BestBelow()
    }

    /** What the next layer says: its coins and its best block. */
    ghost function Under(): (Utxo, BlockHash)
      requires Layered()
      reads BaseRepr
    {
      (Below(), BestBelow())
    }

    /** The meaning of every layer below this one, the database first. */
    ghost function LayersBelow(): seq<(Utxo, BlockHash)>
      requires Layered()
      reads BaseRepr
      decreases depth
    {
      if base == null then [(db.coins, db.bestBlock)]
      else base.LayersBelow() + [(base.View(), base.Best())]
    }

    lemma LayersBelowAgree()
      requires Layered()
      ensures |LayersBelow()| > 0
      ensures LayersBelow()[|LayersBelow()| - 1] == (Below(), BestBelow())
    {
    }

    ghost predicate BelowValid()
      requires Layered()
      reads BaseRepr
      decreases depth, 0
    {
      if base == null then Live(db.coins) else base.Valid()
    }

    /** Flags sound and accounting exact in this layer alone. */
    ghost predicate OwnValid()
      requires Layered()
      reads BaseRepr, this
    {
      Sound(cacheCoins, Below()) && cachedCoinsUsage == TotalUsage(cacheCoins)
    }

    /** Flags sound, accounting exact, no modifier open, here and in every layer below. */
    ghost predicate Valid()
      requires Layered()
      reads BaseRepr, this
      decreases depth, 1
    {
      BelowValid() && !hasModifier && OwnValid()
    }

    lemma BelowLive()
      requires Layered() && BelowValid()
      ensures Live(Below())
      decreases depth, 0
    {
      if base != null {
        base.ViewLive();
      }
    }

    lemma ViewLive()
      requires Layered() && Valid()
      ensures Live(View())
      decreases depth, 1
    {
      BelowLive();
      OverlayLive(cacheCoins, Below());
    }

    constructor OnDatabase(db: CoinsViewDB)
      requires Live(db.coins)
      ensures Layered() && Valid() && base == null && this.db == db && BaseRepr == {db}
      ensures View() == db.coins && Best() == db.bestBlock && hashBlock == 0
    {
      this.db, base, depth, BaseRepr := db, null, 0, {db};
      hasModifier, hashBlock, cacheCoins, cachedCoinsUsage := false, 0, map[], 0;
      new;
      assert UsageMap(cacheCoins) == map[];
      OverlayEmpty(db.coins);
    }

    constructor OnCache(base: CoinsViewCache)
      requires base.Layered() && base.Valid()
      ensures Layered() && Valid() && this.base == base && BaseRepr == base.Repr()
      ensures View() == base.View() && Best() == base.Best() && hashBlock == 0
    {
      this.db, this.base, depth, BaseRepr := base.db, base, base.depth + 1, base.BaseRepr + {base};
      hasModifier, hashBlock, cacheCoins, cachedCoinsUsage := false, 0, map[], 0;
      new;
      assert UsageMap(cacheCoins) == map[];
      OverlayEmpty(base.View());
    }

    /** Read one record from the view below; caches below may fill up, their meaning stays. */
    method GetFromBase(txid: Txid) returns (found: bool, coins: Coins)
      requires Layered() && BelowValid()
      modifies BaseRepr
      ensures BelowValid() && LayersBelow() == old(LayersBelow())
      ensures found ==> Agrees(coins, Below(), txid) && coins.IsClean()
      ensures !found ==> txid !in Below()
      decreases depth, 0
    {
      if base == null {
        if txid in db.coins {
          return true, db.coins[txid];
        } else {
          return false, NoCoins;
        }
      } else {
        found, coins := base.GetCoins(txid);
      }
    }

    /** Replace this layer's own fields; nothing below is touched. */
    method Install(cache: CoinsMap, usage: nat, modifying: bool)
      requires Layered()
      modifies this
      ensures cacheCoins == cache && cachedCoinsUsage == usage && hasModifier == modifying
      ensures hashBlock == old(hashBlock)
      ensures Under() == old(Under())
      ensures LayersBelow() == old(LayersBelow()) && BelowValid() == old(BelowValid())
    {
      cacheCoins, cachedCoinsUsage, hasModifier := cache, usage, modifying;
    }

    /** Keep a record just read from below as an unmodified entry. */
    method Remember(txid: Txid, coins: Coins)
      requires Layered() && Valid() && txid !in cacheCoins
      requires Agrees(coins, Below(), txid) && coins.IsClean()
      modifies this
      ensures Valid() && LayersBelow() == old(LayersBelow())
      ensures View() == old(View()) && hashBlock == old(hashBlock) && Best() == old(Best())
      ensures cacheCoins == old(cacheCoins)[txid := CacheEntry(coins, false, coins.IsPruned())]
    {
      BelowLive();
      ghost var below := Below();
      RememberRefines(cacheCoins, below, txid, coins);
      Install(cacheCoins[txid := CacheEntry(coins, false, coins.IsPruned())],
              cachedCoinsUsage + DynamicUsage(coins.vout), false);
    }

    /** A modifier is open on one dirty entry, whose old memory is remembered by the modifier. */
    ghost predicate Modifying(m: Modifier)
      requires Layered()
      reads BaseRepr, this
    {
      && BelowValid() && hasModifier && Sound(cacheCoins, Below())
      && m.txid in cacheCoins && cacheCoins[m.txid].isDirty
      && cachedCoinsUsage == TotalUsage(cacheCoins) - UsageAt(cacheCoins, m.txid) + m.usage
    }

    /** Install the entry a modifier works on. */
    method Reopen(txid: Txid, entry: CacheEntry)
      requires Layered() && Valid()
      requires entry.isDirty && EntrySound(entry, Below(), txid) && Agrees(entry.coins, View(), txid)
      modifies this
      ensures Modifying(Modifier(txid, old(UsageAt(cacheCoins, txid))))
      ensures cacheCoins == old(cacheCoins)[txid := entry]
      ensures LayersBelow() == old(LayersBelow()) && hashBlock == old(hashBlock)
      ensures Under() == old(Under()) && View() == old(View())
    {
      ghost var below := Below();
      ViewLive();
      PutAgreeing(View(), txid, entry.coins);
      OverlayWrite(cacheCoins, below, txid, entry);
      UsageWrite(cacheCoins, txid, entry);
      Install(cacheCoins[txid := entry], cachedCoinsUsage, true);
    }

    /** Close a modifier: clean the record up, drop it if it is fresh and pruned, and settle
        the memory account. */
    method CloseModifier(m: Modifier, modified: Coins)
      requires Layered() && Modifying(m)
      modifies this
      ensures Valid() && LayersBelow() == old(LayersBelow()) && hashBlock == old(hashBlock)
      ensures Under() == old(Under())
      ensures View() == Put(old(View()), m.txid, modified.Cleanup())
      ensures cacheCoins == Closed(old(cacheCoins), m.txid, modified.Cleanup())
    {
      hide Overlay, Put, Sound, TotalUsage, UsageAt;
      ghost var below := Below();
      var coins := modified.Cleanup();
      ClosedRefines(cacheCoins, below, m.txid, coins);
      UsageCovers(cacheCoins, m.txid);
      var usage := cachedCoinsUsage - m.usage;
      if cacheCoins[m.txid].isFresh && coins.IsPruned() {
        Install(cacheCoins - {m.txid}, usage, false);
      } else {
        usage := usage + DynamicUsage(coins.vout);
        Install(cacheCoins[m.txid := cacheCoins[m.txid].(coins := coins)], usage, false);
      }
    }

    /** Look up a record, filling the cache on a miss: no layer changes its meaning. */
    method GetCoins(txid: Txid) returns (found: bool, coins: Coins)
      requires Layered() && Valid()
      modifies BaseRepr, this
      ensures Valid() && LayersBelow() == old(LayersBelow())
      ensures View() == old(View()) && hashBlock == old(hashBlock) && Best() == old(Best())
      ensures Under() == old(Under())
      ensures found ==> Agrees(coins, View(), txid) && coins.IsClean()
      ensures !found ==> txid !in View()
      ensures found ==> txid in cacheCoins && cacheCoins[txid].coins == coins
      ensures cacheCoins == if found && txid !in old(cacheCoins)
                            then old(cacheCoins)[txid := CacheEntry(coins, false, coins.IsPruned())] else old(cacheCoins)
      decreases depth, 1
    {
      if txid in cacheCoins {
        return true, cacheCoins[txid].coins;
      }
      LayersBelowAgree();
      found, coins := GetFromBase(txid);
      LayersBelowAgree();
      if found {
        Remember(txid, coins);
      }
    }

    /** Open a modifier: the entry is fetched or created, and from now on counts as modified. */
    method ModifyCoins(txid: Txid) returns (m: Modifier, coins: Coins)
      requires Layered() && Valid()
      modifies BaseRepr, this
      ensures Modifying(m) && m.txid == txid && coins == cacheCoins[txid].coins
      ensures LayersBelow() == old(LayersBelow()) && hashBlock == old(hashBlock)
      ensures Under() == old(Under())
      ensures View() == old(View()) && Agrees(coins, View(), txid)
      ensures var isFresh := if txid in old(cacheCoins) then old(cacheCoins)[txid].isFresh else coins.IsPruned();
              cacheCoins == old(cacheCoins)[txid := CacheEntry(coins, true, isFresh)]
    {
      if txid in cacheCoins {
        var entry := cacheCoins[txid];
        m, coins := Modifier(txid, DynamicUsage(entry.coins.vout)), entry.coins;
        Reopen(txid, entry.(isDirty := true));
      } else {
        LayersBelowAgree();
        var found;
        found, coins := GetFromBase(txid);
        LayersBelowAgree();
        m := Modifier(txid, 0);
        if !found {
          coins := NoCoins;
        }
        BelowLive();
        Reopen(txid, CacheEntry(coins, true, coins.IsPruned()));
      }
    }

    /** Open a modifier on a record assumed not to exist, without asking the view below. */
    method ModifyNewCoins(txid: Txid) returns (m: Modifier)
      requires Layered() && Valid()
      requires txid !in Below() && txid !in View()
      modifies this
      ensures Modifying(m) && m.txid == txid && cacheCoins[txid] == NewEntry
      ensures LayersBelow() == old(LayersBelow()) && hashBlock == old(hashBlock)
      ensures Under() == old(Under()) && View() == old(View())
    {
      m := Modifier(txid, 0);
      assert UsageAt(cacheCoins, txid) == 0;
      Reopen(txid, NewEntry);
    }

    /** Forget an entry that carries no flag. */
    method Uncache(txid: Txid)
      requires Layered() && Valid()
      modifies this
      ensures Valid() && LayersBelow() == old(LayersBelow())
      ensures View() == old(View()) && hashBlock == old(hashBlock) && Best() == old(Best())
      ensures cacheCoins == if txid in old(cacheCoins) && !old(cacheCoins)[txid].isDirty && !old(cacheCoins)[txid].isFresh
                            then old(cacheCoins) - {txid} else old(cacheCoins)
    {
      if txid in cacheCoins && !cacheCoins[txid].isDirty && !cacheCoins[txid].isFresh {
        BelowLive();
        UncacheRefines(cacheCoins, Below(), txid);
        UsageCovers(cacheCoins, txid);
        Install(cacheCoins - {txid}, cachedCoinsUsage - DynamicUsage(cacheCoins[txid].coins.vout), false);
      }
    }

    method SetBestBlock(hash: BlockHash)
      requires Layered()
      modifies this
      ensures hashBlock == hash && cacheCoins == old(cacheCoins)
      ensures View() == old(View()) && Valid() == old(Valid()) && LayersBelow() == old(LayersBelow())
      ensures BelowValid() == old(BelowValid()) && Under() == old(Under())
    {
      hashBlock := hash;
    }

    /** The best block, remembered here once it was asked for. */
    method GetBestBlock() returns (hash: BlockHash)
      requires Layered() && Valid()
      modifies BaseRepr, this
      ensures hash == Best() == old(Best()) && hashBlock == hash
      ensures Valid() && View() == old(View()) && LayersBelow() == old(LayersBelow())
      ensures Under() == old(Under())
      decreases depth
    {
      if hashBlock == 0 {
        LayersBelowAgree();
        if base == null {
          hash := db.bestBlock;
        } else {
          hash := base.GetBestBlock();
        }
        LayersBelowAgree();
        SetBestBlock(hash);
      }
      hash := hashBlock;
    }

    /** Take over a child's entries and its best block. */
    method BatchWrite(mapCoins: CoinsMap, hash: BlockHash)
      requires Layered() && Valid() && Sound(mapCoins, View())
      modifies this
      ensures Valid() && View() == Overlay(mapCoins, old(View())) && hashBlock == hash
      ensures LayersBelow() == old(LayersBelow()) && BestBelow() == old(BestBelow())
      ensures Drained(old(cacheCoins), mapCoins, map[], cacheCoins)
    {
      BelowLive();
      var ours, usage := DrainInto(cacheCoins, cachedCoinsUsage, mapCoins, Below());
      Install(ours, usage, false);
      SetBestBlock(hash);
    }

    /** Push everything down: the base now means what this cache meant, and so does the cache. */
    method Flush()
      requires Layered() && Valid()
      modifies BaseRepr, this
      ensures Valid() && cacheCoins == map[] && hashBlock == old(hashBlock)
      ensures View() == Below() == old(View())
      ensures base != null ==> base.Valid() && base.View() == old(View())
      ensures base != null ==> base.hashBlock == hashBlock && base.LayersBelow() == old(base.LayersBelow())
      ensures base == null ==> db.bestBlock == if hashBlock != 0 then hashBlock else old(db.bestBlock)
    {
      hide Overlay, Sound;
      assert UsageMap(map[]) == map[];
      SoundEmpty(View());
      if base == null {
        db.BatchWrite(cacheCoins, hashBlock);
      } else {
        base.BatchWrite(cacheCoins, hashBlock);
      }
      OverlayEmpty(Below());
      Install(map[], 0, false);
    }
  }
}
