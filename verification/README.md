# A verified model of the node's core

This project models the parts of the node that everything else trusts, in Dafny, and proves what
they promise for all inputs and all runs.

**Chain state.** `Coins`, `CoinsCache`, `BlockEffects`, `Money`, `BlockConnect`, `BlockTree`,
`ChainState`, `Ledger` and `StoredVersions`. The set of unspent coins lives in a stack of caches with DIRTY and
FRESH flags over a database; blocks are connected and disconnected with undo records; a driver reorganises the active
chain. `BlockEffects` says what a block does to one flat map of coins, and everything in place is
measured against that. The results: a stack of caches is the flat map; disconnecting undoes
connecting, down to trimmed outputs, heights, coinbase marks and versions; no chain of accepted
blocks ever holds more than the maximum of money, and no running 64-bit sum overflows; after any run
of connecting, disconnecting, rejected blocks and reorganisation steps the cached coins are the naive
replay of the active chain, and an undo record written at the first connect still fits
(`ChainStateManager.Promise`, `TipIsUndone`, `DisconnectInvertsConnect`, `ConnectedConserves`).
`Ledger` tells the unspent outputs from the transactions alone: those of the tip are exactly those that
some block of its chain made with a spendable script, and that neither it nor a later one took
(`BlockOutputs`, `ChainOutputs`, `CoinsAreUnspent`); none is taken twice, and none of a coinbase within a
hundred blocks (`NoDoubleSpend`, `CoinbaseMatures`).
There the files are maps that keep what they are given. The real ones lose negative versions;
`StoredVersions` shows what that does to any run: the coins differ from the naive replay in such
versions only, and neither a verdict nor a disconnection notices (`RunSane`, `VersionsDoNotMatter`).

**Block index.** `SkipList`, `BlockTree`, `BlockArrival`, `MostWork` and `ActivateChain`: skip pointers and
how few steps they take, the active chain as a vector, locators that are dense near the tip, fork
points, the linking of blocks that arrive in any order, the choice of the best usable candidate, and
that no block that has to be a candidate is ever missing. `ActivateChain` joins
the choice of candidates to the chain state: the loop that makes the best chain active ends, at the
best of all blocks whose whole path the rules accept, by work, then time of arrival, then address; a tip
without a rival stays (`ChainActivator.ActivateBestChain`).

**Script check queue.** `CheckQueue` is a transition system over any number of threads, one step
for every critical section, with spurious wake-ups and arbitrary scheduling.

**Address manager.** `AddrBook` holds the five redundant indexes as one value with the lemmas about
every operation; `AddrMan` is the object that changes them in place, and is proved against those
values; `AddrCheck` shows that the manager's own self-check, of tables whose ids are below the counter
and whose registered addresses belong to entries, accepts exactly the consistent ones with sensible
times, except that it silently registers a missing address of the entry numbered zero. It does not look
for stray registered addresses or for ids beyond the counter. `AddrUse` says what the operations come to
together, in seconds and counts: which addresses an answer shows after which uses.

**Partial Merkle trees.** `PartialMerkle` proves completeness and soundness of the encoding of
section "Partial Merkle branch format" of BIP 37, for any pair hash without collisions.

**Block assembly.** `BlockAssembly` is the scheduler that fills a block from the pool: what it takes pays
beyond the free part, and what it leaves out is left out for a reason.

**Arithmetic and codecs.** `ArithUint256` and `Compact` refine 256-bit limb arithmetic and the
compact format to integers; `Base58`, `Compressor`, `CoinsCodec` and `UndoCodec` are round trips.

**Peers.** `BlocksInFlight` keeps the index of requested blocks, the queues of the peers and all
counters exact.

`Basics`, `Sums`, `Powers` and `Products` hold what the others share.

## Conventions

- Hashes, addresses of block index entries and network addresses are plain numbers. A transaction
  hash is an abstract number; that no two different transactions of one block share it
  (`CollisionFree`) is a hypothesis, and so is that the pair hash of Merkle trees has no collision.
- Clock readings, random draws, answers of script and header checks, and the choice when to flush are
  parameters, so that the results hold for all of them.
- Integers are unbounded. Where the width matters it is modelled: amounts in running sums are of a
  64-bit type, limbs and carries are bounded, the block size limit of block assembly wraps around, and
  the time field of an address is reduced to 32 bits.
- Priorities of transactions are real numbers.
- A pruned record of coins is an absent record, as the source's own equality has it.

## Where the code does not do what it might be expected to do

Each of these is stated as an exact condition:

- Creating coins unseen is right exactly if the view below has none (`NewEntryReadsIff`,
  `NewEntryResurrects`), and its memory accounting is exact exactly if the replaced entry held no
  memory (`NewEntryUsageIff`).
- A failed extraction from a partial Merkle tree reports the hash zero but keeps the matches found so
  far, so a reported root vouches for the matches exactly if the true root is not zero
  (`TrustworthyIff`, `ForgedExtracts`).
- Multiplying a number by itself in place gives zero, which is the product exactly if the lower half of
  the number's bits is clear (`BaseUint.Multiply`, `SquareVanishesIff`); it is wrong for the number one
  (`SquareOfOneLost`).
- The address manager's indexes stay consistent whatever the clock says, but its self-check passes after
  marking a known address as reachable exactly at positive times, and after an attempt exactly at times
  that are not negative (`GoodTimesIff`, `SetTimesIff`).
- The self-check of the address manager looks an address up in a way that registers it under zero
  when it is missing, so it passes tables that lack the address of entry zero (`MendingOnlyEntryZero`).
- Coins records and undo data lose negative versions when written, and undo data without a height loses
  any version (`UnserializeSerialize`, `UndoReadsBackIff`, `MinusOneLost`); what is actually recorded
  survives exactly if other outputs are left or the version is not negative (`RecordedReadsBackIff`).

Two conditions are stated for limits that cannot occur, as the check of the chain parameters admits
block limits from 100000 to 5000000 only: below 7000 the byte budget of block assembly wraps around
(`BudgetWithinLimit`), and blocks respect their limit exactly if it is at least 7000 or from 1000 up to
5049 (`BlocksWithinLimitIff`).

## Model

| member | source | states |
|---|---|---|
| `ChainState.ChainStateManager.Promise` | src/main.cpp:2338-2476 | In every reachable state the coins of the tip are the naive fold of the active chain's blocks from genesis, the best block is the tip, and the money in them lies between zero and MAX_MONEY. |
| `ChainState.ChainStateManager.constructor` | src/main.cpp:61-62 | A state without any block is right: no tip, no coins, no undo record. |
| `ChainState.ChainStateManager.StoreBlock` | src/main.cpp:2816-2825 | Data of further blocks may arrive at any time without disturbing the coins, the tip or any undo record on file. |
| `ChainState.ChainStateManager.FlushIfNeeded` | src/main.cpp:2427-2429 | A flush empties the cache and changes neither what the coins mean nor the best block. |
| `ChainState.ChainStateManager.ApplyBlock` | src/main.cpp:2411-2429 | A block is applied exactly if it obeys the rules; a rejected block leaves no trace in the coins or the best block. |
| `ChainState.ChainStateManager.RecordUndo` | src/main.cpp:2129-2142 | An undo record is written only if there is none, and afterwards all records on file are right for the block each belongs to. |
| `ChainState.ChainStateManager.UpdateTip` | src/main.cpp:2293-2296 | Once the coins stand for a block, making it the tip restores the whole invariant. |
| `ChainState.ChainStateManager.Advance` | src/main.cpp:2128-2147 | Recording the undo data and moving the tip after a block was applied restores the whole invariant. |
| `ChainState.ChainStateManager.ConnectTip` | src/main.cpp:2396-2446 | The verdict is exactly that of the rules on the naive replay; on success the block is the tip and has an undo record, on failure chain, records and coins are as before. |
| `ChainState.ChainStateManager.UnapplyBlock` | src/main.cpp:2344-2357 | The undo data on file always fits: the coins become those of the parent, and the best block its hash. |
| `ChainState.ChainStateManager.DisconnectTip` | src/main.cpp:2338-2384 | Disconnecting the tip never fails in a reachable state and leaves the parent as tip with the invariant intact. |
| `ChainState.ChainStateManager.DisconnectTo` | src/main.cpp:2560-2566 | Disconnecting until the fork ends, and ends with the fork as tip. |
| `ChainState.ChainStateManager.BlocksToConnect` | src/main.cpp:2576-2582 | The list holds exactly the ancestors of the target above the current height, highest first. |
| `ChainState.ChainStateManager.ConnectNext` | src/main.cpp:2396-2398 | The parent of the next block to connect is the tip, so the assertion in front of connecting never fires, and the verdict is that on the naive replay of the parent. |
| `ActivateChain.SteadyMoves` | src/main.cpp:2537-2547 | Wherever the tip moves among good blocks, a good candidate not worse than it is left and no block that has to be a candidate is missing. |
| `ActivateChain.SteadyStarts` | src/main.cpp:157-186 | Without any block, no block that has to be a candidate is missing. |
| `ActivateChain.SteadyArrives` | src/main.cpp:2841-2843 | Headers and data that arrive between two activations leave no block that has to be a candidate missing. |
| `ActivateChain.SteadyRefuses` | src/main.cpp:1591-1596 | Marking and dropping a refused block leaves no block that has to be a candidate missing. |
| `ActivateChain.SteadySelected` | src/main.cpp:2482-2535 | Choosing a candidate never marks a block whose whole path is accepted, and leaves no block that has to be a candidate missing. |
| `ActivateChain.BestOfGood` | src/main.cpp:2482-2535 | Every linked block whose whole path is accepted has less work than the candidate that is chosen, or as much and was received later, or also at the same time and has no smaller address. |
| `ActivateChain.UsableUnfailed` | src/main.cpp:2495-2508 | A candidate that is usable above the active chain has no failed block on its whole path. |
| `ActivateChain.NoneGood` | src/main.cpp:2490-2491 | If no candidate is usable, no linked block has an accepted path and there is no tip. |
| `ActivateChain.ChainActivator.constructor` | src/main.cpp:2630-2632 | Coins and block index can be joined when they agree on the tip and the candidates are complete. |
| `ActivateChain.ChainActivator.NextEntry` | src/main.cpp:2585-2586 | The next block to connect is accepted exactly if it is one that an accepted path leads to; a refused one has a tip below it, as the assertion on the tip demands. |
| `ActivateChain.ChainActivator.ConnectOne` | src/main.cpp:2585-2600 | A block is connected exactly if accepted on the naive replay; then worse candidates go, and otherwise it is marked failed, and everything stays joined. |
| `ActivateChain.ChainActivator.ConnectBatch` | src/main.cpp:2584-2607 | Stops at the first block the rules refuse, which is then marked, or at the first block with more work than the old tip, and nowhere else; the state is right wherever it stops. |
| `ActivateChain.ChainActivator.ConnectForward` | src/main.cpp:2570-2608 | Connecting in batches of 32 ends, reaches the target unless it stops for one of the two reasons, and no block before the stop had more work than the old tip. |
| `ActivateChain.ChainActivator.RootShared` | src/main.cpp:2557-2558 | Every linked block has a fork point with an active chain that is not empty. |
| `ActivateChain.ChainActivator.GoBack` | src/main.cpp:2557-2571 | Going back to the fork leaves coins, chain and candidates joined, with the tip on the path of the target. |
| `ActivateChain.ChainActivator.ActivateBestChainStep` | src/main.cpp:2553-2608 | A reorganisation step ends in a right state on the path of the target, having reached the target, passed the old tip's work, or met a block that the rules refuse and that is now marked. |
| `ActivateChain.ChainActivator.ChooseTarget` | src/main.cpp:2644-2649 | The block to work towards is not worse than any linked block whose whole path is accepted; there is none exactly if no such block exists. |
| `ActivateChain.ChainActivator.StepGains` | src/main.cpp:2634-2698 | A step that does not reach its target marks a block that was not marked, or leaves fewer linked blocks with more work than the tip. |
| `ActivateChain.ChainActivator.Round` | src/main.cpp:2634-2698 | A round is the last one, and then the tip is best, or a measure falls. |
| `ActivateChain.ChainActivator.NoRival` | src/main.cpp:2630-2698 | If every other block whose whole path is accepted has less work than a block, or as much and was received later, the best tip is that block. |
| `ActivateChain.ChainActivator.ActivateBestChain` | src/main.cpp:2630-2698 | The loop ends, and when it ends no linked block whose whole path the rules accept has more work than the tip, or as much and was received earlier, or also at the same time and has a smaller address; without a tip there is no such block. A tip without a rival of as much work that was received no later stays the tip, with the same coins. |
| `ChainState.ChainStateManager.BackToFork` | src/main.cpp:2557-2571 | Disconnects exactly down to the highest block that the active chain and the target share. |
| `ChainState.ReplayIsFold` | src/main.cpp:2396-2446 | The recursive replay along parents equals the left fold over the list of blocks from the root. |
| `ChainState.ReplayStable` | src/main.cpp:2816-2825 | Later block data does not change the replay of a block whose data is there. |
| `ChainState.ConnectedConserves` | src/main.cpp:2027-2118 | On every chain of accepted blocks the money is at most MAX_MONEY (zero at genesis), a block adds at most its grant, and all coins carry a height that undo data can restore. |
| `ChainState.AcceptedApplies` | src/main.cpp:2073-2142 | A block accepted on its parent's coins yields its own replay and exactly the undo data that undoes it. |
| `ChainState.RecordAdded` | src/main.cpp:2129-2142 | Keeping an old record or writing a missing one leaves every record right. |
| `ChainState.TipIsUndone` | src/main.cpp:2338-2357 | A record written when a block was first connected still undoes that block, whatever was connected and disconnected since. |
| `ChainState.GenesisConnects` | src/chainparams.cpp:40-58 | The genesis block, whose only output is unspendable and worth nothing, obeys the rules on no coins and leaves none, so undo data never meets a coin of height zero. |
| `ChainState.ConnectedObeys` | src/main.cpp:2396-2446 | The blocks on the path to a connected block obey the rules one after the other. |
| `Ledger.FreshRecord` | src/coins.h:89-95 | The record of a new transaction has an output exactly if the transaction has it and its script does not begin with the byte 0x6a, and holds it with its value, script, height, coinbase mark and version. |
| `Ledger.OthersOutput` | src/main.cpp:1599-1625 | A transaction leaves an output of another one there exactly if it was there and is not among its inputs. |
| `Ledger.OwnOutput` | src/main.cpp:2009-2016 | Before its own transaction an output is neither there nor taken. |
| `Ledger.PrefixOutputs` | src/main.cpp:2035-2073 | After every prefix of a block an output is there exactly if it was there or was made, and was not taken. |
| `Ledger.PrefixRecord` | src/main.cpp:2035-2073 | And while it is there its record holds it as it was made. |
| `Ledger.BlockOutputs` | src/main.cpp:2035-2073 | After an accepted block an output is unspent exactly if it was before or a transaction of the block has it with a spendable script, and no transaction of the block but the coinbase has it among its inputs; a new one is recorded with its value, script, height, version, and the coinbase mark exactly in the first transaction. |
| `Ledger.ChainOutputs` | src/main.cpp:2396-2446 | On every chain that obeys the rules an output is unspent in the replay exactly if some block made it and neither that block nor a later one took it. |
| `Ledger.ChainRecord` | src/main.cpp:2396-2446 | Its record is then that of the transaction that made it, at the height of its block. |
| `Ledger.TakenWasMade` | src/main.cpp:2047-2049 | Whatever a block takes was made by it or an earlier one, and not taken since. |
| `Ledger.OncePerBlock` | src/main.cpp:2047-2049 | No two transactions of an accepted block take the same output. |
| `Ledger.TakenTwiceMadeTwice` | src/main.cpp:2047-2049 | An output that two blocks of a chain take was made again after the first of them. |
| `Ledger.NoDoubleSpend` | src/main.cpp:2047-2049 | On every chain that obeys the rules and repeats no transaction hash, no output is ever taken twice. |
| `Ledger.CoinbaseMatures` | src/main.cpp:1670-1676 | On every chain that obeys the rules, a coinbase output is taken at the earliest by the hundredth block after the one that made it. |
| `Ledger.NeverTaken` | src/main.cpp:2396-2446 | If no hash occurs in two blocks, the unspent outputs are exactly those made and never taken on the whole chain. |
| `Ledger.CoinsAreUnspent` | src/main.cpp:2396-2446 | In every reachable state the coins of the tip are exactly the outputs that its chain made and did not take since. |
| `Ledger.RemovedIff` | src/main.cpp:1898-1915 | When a block is disconnected, the outputs of a transaction are found as they were made exactly if the coins hold all its spendable outputs with the height and coinbase mark of the transaction and its version unless that is negative, and no other spendable one; then its record goes, and nothing else. |
| `BlockConnect.CheckTransaction` | src/main.cpp:790-836 | The running checks accept exactly the well-formed transactions, with the running total inside 64 bits. |
| `BlockConnect.HaveAllInputs` | src/coins.cpp:246-258 | True exactly if every input is an unspent output of the view, which keeps its meaning. |
| `BlockConnect.InputCoins` | src/coins.cpp:129-136 | The record found for an available input is the view's, so the assertions on it hold. |
| `BlockConnect.GetValueIn` | src/coins.cpp:234-244 | The sum of the inputs is that of the flat set, and no partial sum leaves 64 bits. |
| `BlockConnect.CheckInput` | src/main.cpp:1664-1683 | One input is accepted exactly if it is mature and its value and the running sum stay in the money range. |
| `BlockConnect.CheckTxInputs` | src/main.cpp:1655-1697 | The running checks accept exactly the inputs that obey the contextual rules on the flat set. |
| `BlockConnect.SpendInput` | src/main.cpp:1605-1618 | Spending through a cache removes the output from the flat set and records the undo data the flat model records. |
| `BlockConnect.UpdateCoins` | src/main.cpp:1599-1631 | The coins become the flat set with the transaction applied, whose outputs `BlockOutputs` tells from the transactions alone; the undo data are those of the flat model, and the asserted availability of every input holds. |
| `BlockConnect.CheckBlockShape` | src/main.cpp:1989-1991 | True exactly for a coinbase first, no other coinbase, and well-formed transactions. |
| `BlockConnect.CheckBip30` | src/main.cpp:2009-2016 | True exactly if no transaction of the block has unspent coins, whichever layer they are in. |
| `BlockConnect.ConnectTx` | src/main.cpp:2035-2073 | One more transaction is accepted exactly if its inputs are there and obey the rules; fees, coins and undo data follow the flat model. |
| `BlockConnect.ConnectBlock` | src/main.cpp:1982-2169 | The verdict is exact, the new coins and undo data are those of the flat model, and the running fee sum with the grant stays inside 64 bits. |
| `BlockConnect.RestoreRecord` | src/main.cpp:1845-1863 | The branches of the undo routine report clean exactly if the data fits the record, and then restore it. |
| `BlockConnect.ApplyTxInUndo` | src/main.cpp:1840-1864 | Clean exactly if the flat model has a result, and then the coins are that result. |
| `BlockConnect.RemoveOutputs` | src/main.cpp:1898-1915 | Clean exactly if the outputs of the transaction are there unchanged; they are gone afterwards. |
| `BlockConnect.RestoreInputs` | src/main.cpp:1917-1928 | Restoring the inputs last to first follows the flat model. |
| `BlockConnect.DisconnectBlock` | src/main.cpp:1866-1940 | Success exactly if the flat model has a result, which then are the coins; the best block moves to the parent. |
| `BlockConnect.FeesNonNegative` | src/main.cpp:2059 | The fees collected over any prefix of an accepted block are not negative. |
| `BlockConnect.ReachedTx` | src/main.cpp:2035-2059 | When a transaction's turn comes, all coins are restorable and money and fees are bounded by twice the maximum, so 64 bits suffice. |
| `BlockConnect.AcceptedIsUndone` | src/main.cpp:1866-1940 | Every accepted block is undone by the data recorded when it was connected, and reported clean. |
| `BlockConnect.AcceptedEffect` | src/main.cpp:2081-2118 | An accepted block leaves restorable coins and creates no more than the grant. |
| `BlockConnect.ConnectThrough` | src/main.cpp:2411-2424 | Connecting through a cache of its own and flushing it is connecting on the flat set; a rejected block leaves the base as it was. |
| `BlockConnect.DisconnectThrough` | src/main.cpp:2347-2353 | The same for disconnecting. |
| `BlockEffects.RestoreSpent` | src/main.cpp:1840-1861 | Undoing the spending of one output gives the record back exactly: trimmed tail, height, coinbase mark and version. |
| `BlockEffects.UndoOne` | src/main.cpp:1611-1618 | Spending one output of a set and undoing it is the identity. |
| `BlockEffects.NextInputAvailable` | src/main.cpp:1608-1609 | If all inputs are there and none is named twice, each is still there, with its value, when its turn comes. |
| `BlockEffects.UndoAllInverts` | src/main.cpp:1922-1927 | Undoing all inputs in reverse order gives back the set they were taken from. |
| `BlockEffects.NewOutputHasCreator` | src/main.cpp:2035-2073 | An output that turns up while a block is applied belongs to one of its transactions. |
| `BlockEffects.NewTxidHasCreator` | src/main.cpp:2035-2073 | A record that turns up while a block is applied belongs to one of its transactions. |
| `BlockEffects.NoDuplicateTx` | src/main.cpp:2009-2050 | No block that passes the overwrite check and finds its inputs holds a transaction twice. |
| `BlockEffects.NoSecondCopy` | src/main.cpp:2009-2050 | A second copy would have to spend what the first already spent. |
| `BlockEffects.OwnRecordEmpty` | src/main.cpp:1620-1621 | When a transaction's turn comes its own record is empty, which is what creating it unseen relies on. |
| `BlockEffects.FromTxRestorable` | src/coins.h:89-95 | The record of a well-formed transaction at a positive height is pruned or restorable. |
| `BlockEffects.ApplyTxsRestorable` | src/main.cpp:2073 | Applying transactions keeps every record restorable. |
| `BlockEffects.RemoveAddedTx` | src/main.cpp:1898-1915 | The outputs a transaction added are found unchanged and removing them restores the set. |
| `BlockEffects.LastTxUndone` | src/main.cpp:1893-1929 | The last transaction applied is taken back: its outputs, then its inputs. |
| `BlockEffects.DisconnectInvertsConnect` | src/main.cpp:1866-1940 | For every block that connects, undoing transactions and inputs in reverse with the recorded data restores the original set and reports clean. |
| `Money.SpendAllTotal` | src/main.cpp:1655-1697 | Distinct available inputs take exactly their value out of the set. |
| `Money.ValueInBounded` | src/main.cpp:1664-1683 | No prefix of a transaction's inputs is worth more than the whole set. |
| `Money.ApplyTxTotal` | src/main.cpp:1599-1631 | A transaction adds at most its outputs and removes exactly its inputs. |
| `Money.PrefixTotal` | src/main.cpp:2035-2073 | After any prefix of a block the money has grown by at most what the coinbase claims less the fees so far. |
| `Money.BlockConserves` | src/main.cpp:2081-2118 | A block whose coinbase claims no more than its fees plus a grant creates no more than the grant. |
| `Money.FeesBounded` | src/main.cpp:2059 | The fees so far never exceed the money at the start plus the coinbase's claim. |
| `Money.UnspentSpendable` | src/coins.h:120-126 | Dropping unspendable outputs can only lose value. |
| `Coins.CleanupLoop` | src/coins.h:112-118 | The popping loop computes the longest prefix that does not end in a null output. |
| `Coins.TrimmedUnique` | src/coins.h:112-118 | Trimming is the only way to write outputs as a clean list followed by nulls. |
| `Coins.Coins.Cleanup` | src/coins.h:112-118 | Cleaning up keeps which outputs are available, and a pruned record has no outputs left. |
| `Coins.Coins.Spend` | src/coins.cpp:35-42 | Spending succeeds exactly if the output is available, and then it is not any more. |
| `Coins.MallocUsage` | src/memusage.h:46-58 | An allocation takes nothing, or the least multiple of sixteen with room for sixteen bytes more. |
| `Coins.DynamicMemoryUsage` | src/coins.h:258-264 | The loop over the outputs adds up what the vector and all scripts of more than 28 bytes take, which is what the cache accounts for. |
| `CoinsCache.Overlay` | src/coins.h:285-293 | What a cache over a view means: its own entries where it has them, the view below elsewhere. |
| `CoinsCache.RememberRefines` | src/coins.cpp:72-88 | Caching what the view below says keeps the flags sound and the meaning, and adds exactly its memory. |
| `CoinsCache.UncacheRefines` | src/coins.cpp:214-221 | Forgetting an unmodified entry keeps soundness and meaning, and removes exactly its memory. |
| `CoinsCache.ClosedRefines` | src/coins.cpp:284-296 | Closing a modifier writes the record through, keeps FRESH and DIRTY sound and settles the memory exactly. |
| `CoinsCache.NewEntryReadsIff` | src/coins.h:430-437 | An entry created unseen reads back as whatever record is then written to it, for every record, exactly if the view below has no unpruned coins for it. |
| `CoinsCache.NewEntryResurrects` | src/coins.h:430-437 | Otherwise spending the new coins before a flush brings the old ones back. |
| `CoinsCache.NewEntryUsageIff` | src/coins.cpp:120-127 | Charging a new entry as if it replaced nothing is exact exactly if the replaced entry held no memory. |
| `CoinsCache.WriteEntryRefines` | src/coins.cpp:162-201 | Writing a sound child entry sets the parent's meaning of that transaction to the child's. |
| `CoinsCache.BatchStep` | src/coins.cpp:162-201 | After one entry is written, the rest of the batch means the same as before. |
| `CoinsCache.DrainStep` | src/coins.cpp:164-202 | The entries of a batch are written independently of each other, so their order does not matter. |
| `CoinsCache.DrainOne` | src/coins.cpp:165-199 | The branches of the batch loop keep the running memory total exact. |
| `CoinsCache.DrainInto` | src/coins.cpp:162-205 | Draining a child in any order keeps flags sound and memory exact, and the parent then means what the child meant. |
| `CoinsCache.CollectBatch` | src/txdb.cpp:50-65 | The batch written to the database is the child's meaning. |
| `CoinsCache.CoinsViewDB.BatchWrite` | src/txdb.cpp:50-72 | The database becomes the child's meaning; a null best block leaves the stored one. |
| `CoinsCache.CoinsViewCache.OnDatabase` | src/coins.cpp:61 | A fresh cache on a database means what the database means. |
| `CoinsCache.CoinsViewCache.OnCache` | src/coins.cpp:61 | A fresh cache on a cache means what that cache means. |
| `CoinsCache.CoinsViewCache.GetFromBase` | src/coins.cpp:76-77 | A read from below agrees with the view below; caches on the way may fill up, their meaning stays. |
| `CoinsCache.CoinsViewCache.Remember` | src/coins.cpp:78-87 | A record just read is kept unmodified, FRESH exactly if it is pruned; the meaning and the memory account stay right. |
| `CoinsCache.CoinsViewCache.Reopen` | src/coins.cpp:99-118 | Opening a modifier marks the entry modified without changing the meaning. |
| `CoinsCache.CoinsViewCache.CloseModifier` | src/coins.cpp:284-296 | Closing a modifier sets the record, cleaned up, in the view; a fresh pruned entry is dropped; the memory account is exact again. |
| `CoinsCache.CoinsViewCache.GetCoins` | src/coins.cpp:72-97 | A lookup agrees with the flat map, fills the cache on a miss, and changes no layer's meaning. |
| `CoinsCache.CoinsViewCache.ModifyCoins` | src/coins.cpp:99-118 | The record handed out agrees with the flat map, is marked modified, and is FRESH if new here and absent below. |
| `CoinsCache.CoinsViewCache.ModifyNewCoins` | src/coins.cpp:120-127 | Under the documented assumption, an empty record is opened without reading below and nothing changes its meaning. |
| `CoinsCache.CoinsViewCache.Uncache` | src/coins.cpp:214-221 | Exactly an entry without flags is forgotten; the meaning stays. |
| `CoinsCache.CoinsViewCache.SetBestBlock` | src/coins.cpp:158-160 | Only the best block changes. |
| `CoinsCache.CoinsViewCache.GetBestBlock` | src/coins.cpp:152-156 | The best block of the nearest layer that has one, remembered here. |
| `CoinsCache.CoinsViewCache.BatchWrite` | src/coins.cpp:162-205 | The cache takes over a child's meaning and best block, entry by entry, with sound flags and exact memory. |
| `CoinsCache.CoinsViewCache.Flush` | src/coins.cpp:207-212 | The base now means what this cache meant, the cache is empty and means the same. |
| `SkipList.InvertLowestOneBits` | src/chain.cpp:66 | On 32 bits the machine expression gives the number with its lowest one cleared, as the skip heights use it. |
| `SkipList.GetSkipHeight` | src/chain.cpp:69-77 | A skip always leads to a lower height. |
| `SkipList.DownToBase` | src/chain.cpp:79-103 | From inside a range of heights that share their upper bits the walk leaves the range, towards any height below it, in at most twice as many steps as one-bits are cleared. |
| `SkipList.StepsWithin` | src/chain.cpp:79-103 | Inside a range of 2^j heights the walk takes at most j*j steps. |
| `SkipList.StepsSquare` | src/chain.cpp:79-103 | Between any two heights of at most b bits the walk over skip pointers takes at most b*b steps. |
| `BlockTree.BlockIndex.constructor` | src/main.cpp:2790-2805 | A block added below its parent gets the next height and a skip pointer to its true ancestor at the skip height. |
| `BlockTree.BlockIndex.AncestorTransitive` | src/chain.cpp:79-103 | An ancestor of an ancestor is an ancestor. |
| `BlockTree.BlockIndex.StepKeepsAncestor` | src/chain.cpp:86-101 | Neither step of the walk, over the skip pointer or to the parent, loses the sought ancestor. |
| `BlockTree.BlockIndex.GetAncestor` | src/chain.cpp:79-103 | The walk over skip pointers ends, at the block where the plain parent walk ends; out of range there is none. |
| `BlockTree.BlockIndex.WalkTo` | src/chain.cpp:79-103 | That walk takes at most b*b steps from a block whose height has b bits. |
| `BlockTree.SharedBelow` | src/chain.cpp:54-63 | Two blocks that share an ancestor share everything below it. |
| `BlockTree.Chain.ContainsIff` | src/chain.h:397-400 | A block is contained exactly if it is the tip's ancestor at its height. |
| `BlockTree.Chain.SetTip` | src/chain.cpp:14-24 | Despite the early exit the vector is exactly the path from the root to the new tip. |
| `BlockTree.Chain.FindFork` | src/chain.cpp:54-63 | The result is on both chains and no higher block is; none exactly if nothing is shared. |
| `BlockTree.Chain.StepBack` | src/chain.cpp:40-47 | The vector shortcut gives the same ancestor as the walk. |
| `BlockTree.Chain.GetLocator` | src/chain.cpp:26-52 | Strictly descending ancestors from the start to the root, in at most 12 + ceil(log2(height + 1)) entries; the first twelve are consecutive, and for every depth d there is an entry between d and 2d below the start. |
| `BlockTree.LocatorShort` | src/chain.cpp:26-52 | A locator that reaches the root now is as short as promised. |
| `BlockTree.LocatorDense` | src/chain.cpp:38-48 | Steps that double after the eleventh entry leave the first twelve heights consecutive and no gap that more than doubles a depth. |
| `BlockTree.DepthReached` | src/chain.cpp:38-48 | Every depth up to that of an entry has an entry at that depth or at most twice as deep. |
| `BlockArrival.LessIsTotalOrder` | src/main.cpp:135-154 | The candidate comparison is a strict total order. |
| `BlockArrival.PreferredIff` | src/main.cpp:135-154 | One block is not below another exactly if it has more work, or as much and was received earlier, or also at the same time and has no greater address. |
| `BlockArrival.LinkedIffArrived` | src/main.cpp:2827-2856 | With an empty queue the linked blocks are exactly those whose ancestors have all arrived. |
| `BlockArrival.LinkNext` | src/main.cpp:2833-2851 | Linking the front of the queue and queueing what waited for it keeps the bookkeeping right. |
| `BlockArrival.NumberNext` | src/main.cpp:2836-2840 | Counting and numbering the next block keeps all counts and the order of sequence numbers right. |
| `BlockArrival.CountIsPathSum` | src/main.cpp:2836 | The count of a linked block is the sum of the transactions on its path. |
| `BlockArrival.ArrivalsDecide` | src/main.cpp:2816-2859 | The count is not zero exactly if all ancestors arrived and is then the path sum, parents have smaller sequence numbers, and a block waits exactly if it arrived and some ancestor did not. |
| `BlockArrival.OrderDoesNotMatter` | src/main.cpp:2816-2859 | The counts do not depend on the order of arrival. |
| `BlockArrival.StepUnderway` | src/main.cpp:2833-2851 | Processing one block of the queue keeps everything right. |
| `BlockArrival.ArriveLinked` | src/main.cpp:2827-2830 | A block whose parent is linked is the whole queue. |
| `BlockArrival.ArriveUnlinked` | src/main.cpp:2852-2855 | A block whose parent is not linked waits under its parent. |
| `BlockArrival.HeaderKeeps` | src/main.cpp:2781-2813 | A new header changes nothing for the blocks that arrived. |
| `BlockArrival.TipCovered` | src/main.cpp:2537-2547 | Wherever the tip moves, some candidate is not worse than it, if the candidates are complete. |
| `BlockArrival.PruneCompletes` | src/main.cpp:2541-2546 | Dropping the candidates worse than the tip keeps complete candidates complete. |
| `BlockArrival.ArrivalCompletes` | src/main.cpp:2841-2843 | New headers and arrivals keep complete candidates complete. |
| `BlockArrival.FailureCompletes` | src/main.cpp:1591-1596 | A refused block leaves the candidates, and they stay complete: the candidate that covers the tip has an accepted path, so it does not build on a refused block. |
| `BlockArrival.BlockIndexMap.constructor` | src/main.cpp:157-186 | An empty index is right. |
| `BlockArrival.BlockIndexMap.AddToBlockIndex` | src/main.cpp:2781-2813 | A known header changes nothing; a new one gets its parent, height and accumulated work, and no candidate is missing for it. |
| `BlockArrival.BlockIndexMap.LinkOne` | src/main.cpp:2834-2850 | One block is linked, counted, numbered, and a candidate exactly if it is not worse than the tip. |
| `BlockArrival.BlockIndexMap.LinkQueue` | src/main.cpp:2829-2851 | The queue empties; exactly the newly linked blocks that are not worse than the tip became candidates. |
| `BlockArrival.BlockIndexMap.MarkFailed` | src/main.cpp:1591-1592 | A block may be marked as failed at any time without disturbing what is linked or waits. |
| `BlockArrival.BlockIndexMap.LinkedExactly` | src/main.cpp:2827-2856 | A block without a failed ancestor is linked exactly if it and all its ancestors have arrived. |
| `BlockArrival.BlockIndexMap.ReceivedBlockTransactions` | src/main.cpp:2816-2859 | Every arrival keeps the whole bookkeeping right, exactly the newly linked, not worse blocks become candidates, complete candidates stay complete, and a block is linked at once exactly if its parent is linked or it has none, waits exactly if its parent is neither linked nor failed, and otherwise does neither. |
| `MostWork.UnusableAnyway` | src/main.cpp:2515-2517 | Marking more blocks failed changes no path that was usable. |
| `MostWork.SegmentUnusable` | src/main.cpp:2512-2526 | Everything from a candidate down to its first bad block is unusable. |
| `MostWork.BestExists` | src/main.cpp:2487-2493 | A set of candidates that is not empty has a greatest element. |
| `MostWork.WorstExists` | src/main.cpp:2541-2544 | And a least one. |
| `MostWork.UnfailedUsable` | src/main.cpp:2495-2508 | Without pruning, a linked block without a failure on its path is usable, whatever the active chain. |
| `MostWork.StaysUnfailed` | src/main.cpp:2512-2526 | Marking unusable blocks as failed leaves a path without failures alone. |
| `MostWork.SelectCompletes` | src/main.cpp:2482-2535 | Dropping and marking only unusable blocks keeps complete candidates complete. |
| `MostWork.ChainSelector.FindBad` | src/main.cpp:2497-2531 | The walk finds the first failed or data-missing block above the active chain, or there is none; every block on the way has a transaction count, so the assertion on it holds. |
| `MostWork.ChainSelector.Disown` | src/main.cpp:2515-2524 | The block leaves the candidates; it is marked failed, or queued for its parent. |
| `MostWork.ChainSelector.EraseDownTo` | src/main.cpp:2512-2526 | Exactly the unusable part of the path leaves the candidates; above a failed block it is failed, above a block without data every block waits for its parent. |
| `MostWork.ChainSelector.TryBest` | src/main.cpp:2484-2534 | One round returns the best candidate if its path is usable, or drops at least one candidate, and only unusable ones. |
| `MostWork.ChainSelector.FindMostWorkChain` | src/main.cpp:2482-2535 | Ends with a usable candidate such that every other usable one has less work, or as much and was received later, or also at the same time and has a greater address; with none exactly if no candidate is usable; everything dropped or marked was unusable, and complete candidates stay complete. |
| `MostWork.ChainSelector.InvalidChainFound` | src/main.cpp:1562-1565 | The invalid block with the most work is remembered. |
| `MostWork.ChainSelector.InvalidBlockFound` | src/main.cpp:1591-1596 | The refused block is marked and leaves the candidates, and nothing else does. |
| `MostWork.ChainSelector.PruneBlockIndexCandidates` | src/main.cpp:2537-2547 | Exactly the candidates not worse than the tip remain; complete candidates stay complete and one of them covers the tip, so the assertion that some are left holds. |
| `CheckQueue.InitHolds` | src/checkqueue.h:129-131 | A fresh queue with any number of threads satisfies the invariant. |
| `CheckQueue.ReturnKeeps` | src/checkqueue.h:91-100 | The master leaves only when everything added was answered, and takes the conjunction with it. |
| `CheckQueue.SleepKeeps` | src/checkqueue.h:101-103 | Going to sleep keeps the invariant: a sleeping master has unfinished work or was signalled. |
| `CheckQueue.TakeKeeps` | src/checkqueue.h:105-119 | Taking a batch keeps the invariant, whatever the number of threads makes its size. |
| `CheckQueue.LoopTopKeeps` | src/checkqueue.h:90-119 | However a critical section ends, the invariant holds again, and a value returned is the conjunction of all checks added. |
| `CheckQueue.EnterKeeps` | src/checkqueue.h:86-89 | A thread entering the loop keeps the invariant. |
| `CheckQueue.FinishKeeps` | src/checkqueue.h:80-85 | Accounting for a finished batch keeps it; the last batch signals the master. |
| `CheckQueue.WakeKeeps` | src/checkqueue.h:101-104 | Waking up, spuriously or not, keeps it. |
| `CheckQueue.AddKeeps` | src/checkqueue.h:146-158 | Adding checks keeps it, whichever workers are notified. |
| `CheckQueue.StepKeeps` | src/checkqueue.h:69-158 | Every enabled step of every thread keeps the invariant. |
| `CheckQueue.RunKeeps` | src/checkqueue.h:69-158 | The invariant holds throughout every interleaving of any number of threads. |
| `CheckQueue.WaitAnswers` | src/checkqueue.h:139-143 | In every run a wait returns the conjunction of exactly the checks added since the last return, and leaves the queue idle. |
| `CheckQueue.IdleBetweenUses` | src/checkqueue.h:184-191 | Between uses the idle assertion of the next control object holds. |
| `CheckQueue.CountersExact` | src/checkqueue.h:42-60 | Pending work is queued plus in flight, and the threads not idle are exactly those that hold a batch. |
| `CheckQueue.MasterNotStuck` | src/checkqueue.h:80-103 | While the master waits, some thread runs a batch or the master has been signalled. |
| `CheckQueue.FairShare` | src/checkqueue.h:105-110 | A batch of more than one check is within the limit and leaves as many for every other thread, busy or idle; no larger batch would. |
| `CheckQueue.TakeBatch` | src/checkqueue.h:110-117 | The loop moves exactly the last checks off the stack. |
| `CheckQueue.RunBatch` | src/checkqueue.h:118-125 | Skipping checks after a failure still yields the conjunction. |
| `AddrBook.TerribleIff` | src/addrman.cpp:32-50 | An entry is kept and shown exactly if it was tried in the last 60 seconds, or was seen in the last 2592000 seconds and not more than 600 ahead, has a success or fewer than 3 attempts, and a success in the last 604800 seconds or fewer than 10 attempts. |
| `AddrBook.RefreshedTime` | src/addrman.cpp:256-259 | Being announced again never moves the recorded time back; it moves only to the announced time less the penalty, only by more than an hour for an address that is online and a day otherwise, and ends at most that far behind the announcement; an entry without a time gets the announced one less the penalty, or zero. |
| `AddrBook.TouchKeeps` | src/addrman.cpp:211-214 | Changing times, services or attempts of an entry keeps all indexes consistent. |
| `AddrBook.SwapKeeps` | src/addrman.cpp:99-117 | Swapping two places of vRandom keeps everything; vRandom and the places stay inverse. |
| `AddrBook.DropKeeps` | src/addrman.cpp:119-131 | Dropping the last entry of vRandom, in no table, keeps everything. |
| `AddrBook.DeleteKeeps` | src/addrman.cpp:119-131 | Forgetting an entry in no table keeps everything, and only that entry goes. |
| `AddrBook.UnrefKeeps` | src/addrman.cpp:136-141 | Taking a reference away keeps the counts exact; an entry left without references is in limbo. |
| `AddrBook.ForgetKeeps` | src/addrman.cpp:142-144 | Forgetting the entry in limbo restores consistency. |
| `AddrBook.ClearKeeps` | src/addrman.cpp:133-146 | Clearing a slot keeps everything, touches no other entry, and forgets an entry exactly with its last reference. |
| `AddrBook.ReferenceKeeps` | src/addrman.cpp:184-187 | Entering a reference into a free slot keeps everything and takes the entry out of limbo. |
| `AddrBook.CreateKeeps` | src/addrman.cpp:87-97 | A new entry starts in limbo, with all indexes right. |
| `AddrBook.EnrollKeeps` | src/addrman.cpp:283-285 | A new entry, counted, is consistent but for its missing reference. |
| `AddrBook.WithdrawKeeps` | src/addrman.cpp:150-160 | Taking an entry out of every bucket leaves it in limbo with exact counts. |
| `AddrBook.DemoteKeeps` | src/addrman.cpp:169-176 | Taking an entry out of the tried table leaves it in limbo. |
| `AddrBook.DisplaceKeeps` | src/addrman.cpp:169-182 | Freeing the evicted entry's place in the new table costs at most one other entry a reference. |
| `AddrBook.EvictKeeps` | src/addrman.cpp:166-188 | Making room in the tried table keeps everything; the evicted entry is in the new table again. |
| `AddrBook.EvictRearranges` | src/addrman.cpp:166-188 | Making room concerns only the evicted entry and possibly the last reference of the one in its way. |
| `AddrBook.PromoteKeeps` | src/addrman.cpp:189-193 | Entering an entry into its free tried slot restores consistency. |
| `AddrBook.MadeRoomKeeps` | src/addrman.cpp:162-189 | Whether or not the slot was taken, there is room and everything else is kept. |
| `AddrBook.MakeTriedKeeps` | src/addrman.cpp:148-194 | Moving an entry to the tried table keeps everything, and nothing tried is ever forgotten. |
| `AddrBook.TakeKeeps` | src/addrman.cpp:300-303 | Taking a slot of the new table from whoever held it restores consistency. |
| `AddrBook.LeaveKeeps` | src/addrman.cpp:304-308 | An entry that gets no slot is forgotten again exactly if it has no reference. |
| `AddrBook.LookupFinds` | src/addrman.cpp:74-85 | The lookup finds every entry by its address and port. |
| `AddrBook.HasReference` | src/addrman.cpp:222-237 | A new entry is in some bucket, so the search in front of the move finds one. |
| `AddrBook.DrawKeeps` | src/addrman.cpp:468-470 | Drawing from the rest of vRandom leaves what was drawn before in place. |
| `AddrBook.RandomLists` | src/addrman.cpp:457-476 | vRandom lists every entry exactly once. |
| `AddrBook.SetTimesIff` | src/addrman.cpp:391-411 | Setting the times of an entry leaves sensible times exactly if they are not negative and a tried entry has a success. |
| `AddrBook.GoodTimesIff` | src/addrman.cpp:211-242 | Marking a known entry as reachable leaves sensible times exactly at a positive time. |
| `AddrBook.SizeIsCounted` | src/addrman.cpp:385-386 | The size is the number of new plus the number of tried entries. |
| `AddrMan.RefsInBucket` | src/addrman.cpp:150-157 | An entry has at most one reference per bucket, and its hash says where. |
| `AddrMan.Rotate` | src/addrman.cpp:223-232 | Counting round from any start visits every bucket. |
| `AddrMan.PicksRight` | src/addrman.cpp:463-475 | The picked addresses are those of the listed entries that are not terrible, each once. |
| `AddrMan.GatherDone` | src/addrman.cpp:457-476 | What was gathered has no repeats and nothing terrible, and misses nothing if all of vRandom was drawn. |
| `AddrMan.CAddrMan.constructor` | src/addrman.h:432-455 | A constructed manager is empty and consistent. |
| `AddrMan.CAddrMan.Create` | src/addrman.cpp:87-97 | The tables with the next id registered under its address, at the end of vRandom. |
| `AddrMan.CAddrMan.SwapRandom` | src/addrman.cpp:99-117 | The tables with two places of vRandom swapped; the assertions on the places hold. |
| `AddrMan.CAddrMan.Delete` | src/addrman.cpp:119-131 | The tables without the entry, which was in no table. |
| `AddrMan.CAddrMan.ClearNew` | src/addrman.cpp:133-146 | The tables with the slot cleared; the assertion on the reference count holds. |
| `AddrMan.CAddrMan.Withdraw` | src/addrman.cpp:150-160 | The tables with the entry out of every bucket and not counted; the assertion on its references holds. |
| `AddrMan.CAddrMan.Demote` | src/addrman.cpp:168-176 | The tables with the slot's entry out of the tried table. |
| `AddrMan.CAddrMan.Evict` | src/addrman.cpp:166-188 | The tables with the slot's entry back in the new table; the assertion on the freed slot holds. |
| `AddrMan.CAddrMan.Promote` | src/addrman.cpp:189-193 | The tables with the entry in its tried slot; the assertion on the free slot holds. |
| `AddrMan.CAddrMan.MakeRoom` | src/addrman.cpp:162-189 | The slot is free afterwards, whoever held it. |
| `AddrMan.CAddrMan.MakeTried` | src/addrman.cpp:148-194 | The entry is tried with its record unchanged, and at most the previous holder of its slot and one other entry are concerned. |
| `AddrMan.CAddrMan.TakeSlot` | src/addrman.cpp:300-303 | The tables with the slot cleared of whoever held it and given to the entry, with one reference more. |
| `AddrMan.CAddrMan.Place` | src/addrman.cpp:289-309 | The new table changes in at most the one slot that the address and its source hash to, and exactly if it is free or its entry is unfit, or has other references while the newcomer has none; the newcomer stays exactly if it has a reference in the end, and only unfit entries with one reference are lost. |
| `AddrMan.CAddrMan.FindReference` | src/addrman.cpp:222-237 | A new entry is found in some bucket, from any start. |
| `AddrMan.CAddrMan.Find` | src/addrman.cpp:196-209 | The entry for an address, or none if the port differs or it is unknown. |
| `AddrMan.CAddrMan.Good` | src/addrman.cpp:196-243 | A known address is tried afterwards with its success recorded; an unknown one changes nothing. The indexes stay consistent at any time, and the recorded times sensible exactly if the time is positive or the address unknown. |
| `AddrMan.CAddrMan.Attempt` | src/addrman.cpp:313-330 | Exactly the entry's last try and attempts change; the recorded times stay sensible exactly if the time is not negative or the address unknown. |
| `AddrMan.CAddrMan.Connected` | src/addrman.cpp:478-496 | Exactly the entry's time changes, if it is more than twenty minutes old; nothing is broken at any time. |
| `AddrMan.CAddrMan.Refresh` | src/addrman.cpp:254-281 | A known entry is refreshed as announced, and may get another place exactly if new, referenced less than eight times, announced later than recorded, and drawn with odds of one in 2 to the number of its references. |
| `AddrMan.CAddrMan.Enroll` | src/addrman.cpp:282-287 | The tables with a new entry, counted but in no bucket. |
| `AddrMan.CAddrMan.Add` | src/addrman.cpp:245-311 | New exactly if routable and unknown; the new table changes in at most the one slot of the address, exactly if it may take it; the tried table does not change, only unfit entries with a single reference are lost, and a new address stays exactly if its slot is open to it. |
| `AddrMan.CAddrMan.Draw` | src/addrman.cpp:468-470 | The next place is drawn from the rest; earlier places stay. |
| `AddrMan.CAddrMan.GatherOne` | src/addrman.cpp:468-474 | One more entry is drawn and kept unless terrible. |
| `AddrMan.CAddrMan.GetAddr` | src/addrman.cpp:457-476 | No repeats, only addresses of fit entries, at most 23 per cent and 2500; if fewer come back, the address of every fit entry is there; entries only change places. |
| `AddrUse.GoodIsShown` | src/addrman.cpp:196-243 | A known address that was just marked as reachable, seen within thirty days, is in every answer that reached neither limit. |
| `AddrUse.FailingIsHidden` | src/addrman.cpp:313-330 | A known address without any success is in no answer after three attempts, once the last is more than 60 seconds ago. |
| `AddrUse.StaleIsHidden` | src/addrman.cpp:457-476 | A known address not seen for more than thirty days, or never, and not tried in the last 60 seconds, is in no answer. |
| `AddrUse.AddedIsShown` | src/addrman.cpp:245-311 | A new recent address whose slot is free is recorded with its services, source and time less the penalty, and is in every answer that reached neither limit. |
| `AddrUse.TriedKeepsPlaces` | src/addrman.cpp:293-303 | An entry tried in the last 60 seconds loses no reference to an added address, unless it has more than one and the other is new. |
| `AddrUse.RefsPositive` | src/addrman.cpp:133-146 | In consistent tables every entry that is not tried has a reference. |
| `AddrMan.CAddrMan.CheckEntry` | src/addrman.cpp:388-412 | The tests on one entry pass exactly as stated, with the lookup registering a missing address under zero. |
| `AddrMan.CAddrMan.CheckEntries` | src/addrman.cpp:388-412 | All entries pass exactly if each does; the tried ids and claimed counts are gathered exactly. |
| `AddrMan.CAddrMan.CheckTried` | src/addrman.cpp:419-431 | Passes exactly if every occupied tried slot holds a tried entry that belongs there; what is left over are the tried entries without a slot. |
| `AddrMan.CAddrMan.CheckNew` | src/addrman.cpp:433-444 | Passes, with nothing left over, exactly if every occupied new slot holds a new entry that belongs there and all reference counts are exact. |
| `AddrMan.CAddrMan.Check` | src/addrman.cpp:380-453 | The self-check returns zero exactly if the key is set and the tables are consistent with sensible times, up to a missing address of entry zero, which it registers. |
| `AddrCheck.EveryPlaceTaken` | src/addrman.cpp:406-407 | As many places as entries, each entry at its place: then vRandom and the places are inverse. |
| `AddrCheck.TriedMatches` | src/addrman.cpp:419-431 | Occupied slots pass and all tried entries appear exactly if the tried table is right. |
| `AddrCheck.PassesIff` | src/addrman.cpp:380-453 | Passing all tests is the same as being consistent with sensible times. |
| `AddrCheck.MendingOnlyEntryZero` | src/addrman.cpp:404-405 | Consistent tables are left alone; tables that only miss the address of entry zero are inconsistent, pass, and are mended. |
| `AddrCheck.TriedOccupied` | src/addrman.cpp:421-428 | A tried slot passes exactly if its entry is still awaited and belongs there. |
| `AddrCheck.NewOccupied` | src/addrman.cpp:435-441 | A passing new slot uses up one claimed reference. |
| `AddrCheck.NewTooMany` | src/addrman.cpp:436-437 | A slot whose entry has no claimed reference left proves the table wrong. |
| `PartialMerkle.NodeIffBelowWidth` | src/merkleblock.h:66-68 | A node exists exactly if its position is below the computed width. |
| `PartialMerkle.Children` | src/merkleblock.cpp:64-79 | The leaves of a node are those of its children in order. |
| `PartialMerkle.RootCovers` | src/merkleblock.cpp:140-143 | The root at the computed height covers all transactions. |
| `PartialMerkle.SameHashSameStart` | src/merkleblock.cpp:64-79 | With an injective pair hash, equal nodes of a level start with the same transaction. |
| `PartialMerkle.SiblingsDiffer` | src/merkleblock.cpp:120-126 | With distinct transactions siblings differ, so the duplicate test never fires on honest data. |
| `PartialMerkle.DecodeEncode` | src/merkleblock.cpp:81-133 | Decoding the code of a node, wherever it stands in the streams, gives its hash and its selected transactions and consumes exactly the code. |
| `PartialMerkle.BadStays` | src/merkleblock.cpp:99-133 | Once bad, always bad. |
| `PartialMerkle.MatchesGrow` | src/merkleblock.cpp:99-133 | Matches are only ever appended. |
| `PartialMerkle.DecodeSound` | src/merkleblock.cpp:99-133 | Whatever the streams: a success with the node's true hash found transactions below that node, in order. |
| `PartialMerkle.CodeSize` | src/merkleblock.cpp:81-97 | At most one hash per transaction below, at most one plus one per level and match, and a flag for every hash. |
| `PartialMerkle.Pack` | src/merkleblock.h:100-102 | Every flag is the right bit of the right byte. |
| `PartialMerkle.Unpack` | src/merkleblock.h:95-97 | Every bit of every byte becomes a flag. |
| `PartialMerkle.SendBits` | src/merkleblock.h:88-105 | Packing and unpacking only adds padding of less than a byte. |
| `PartialMerkle.ExtractComplete` | src/merkleblock.cpp:135-182 | For distinct transactions within the limit and any selection, build, pack, unpack and extract give the root and exactly the selection in order. |
| `PartialMerkle.EncodingSize` | src/merkleblock.cpp:135-147 | At most as many hashes as transactions, and at most one plus the height for every match. |
| `PartialMerkle.ExtractSound` | src/merkleblock.cpp:151-182 | For any streams: if the true root, not zero, comes back, the matches are an ordered sublist of the transactions. |
| `PartialMerkle.ForgedExtracts` | src/merkleblock.cpp:151-182 | For every length some stream of whole bytes fails, reports zero, and still leaves a chosen hash among the matches. |
| `PartialMerkle.TrustworthyIff` | src/merkleblock.cpp:151-182 | The promise that a reported true root vouches for the matches, for all streams that can be received, holds exactly for lists whose root is not zero. |
| `PartialMerkle.CPartialMerkleTree.Empty` | src/merkleblock.cpp:149 | An empty tree counts as bad. |
| `PartialMerkle.CPartialMerkleTree.constructor` | src/merkleblock.cpp:135-147 | The streams are the code of the root. |
| `PartialMerkle.CPartialMerkleTree.Received` | src/merkleblock.h:92-98 | A received tree holds the flags of its bytes and is not bad yet. |
| `PartialMerkle.CPartialMerkleTree.CalcHeight` | src/merkleblock.cpp:140-143 | The loop finds the first height with a single node. |
| `PartialMerkle.CPartialMerkleTree.ParentOfMatch` | src/merkleblock.cpp:82-85 | Whether some selected transaction is below the node. |
| `PartialMerkle.CPartialMerkleTree.TraverseAndBuild` | src/merkleblock.cpp:81-97 | Appends exactly the code of the node to both streams. |
| `PartialMerkle.CPartialMerkleTree.TraverseAndExtract` | src/merkleblock.cpp:99-133 | Does what decoding the node does, for any streams. |
| `PartialMerkle.CPartialMerkleTree.ExtractMatches` | src/merkleblock.cpp:151-182 | Reports the decoded root, or zero after any failed test, and the matches found. |
| `BlockAssembly.BlockMaxSize` | src/blockfactory.cpp:95-98 | The byte budget is what was asked for, cut at 7000 below the limit and raised to 1000, each on 32 bits; under a limit of at least 7000 it is at most 7000 below it or 1000. |
| `BlockAssembly.Budgets` | src/blockfactory.cpp:95-109 | The priority and minimum sizes are those asked for, or the byte budget if that is smaller, and there is one signature operation to fifty bytes of the limit. |
| `BlockAssembly.BudgetWithinLimit` | src/blockfactory.cpp:95-98 | The budget respects the block limit for every argument exactly if the limit is at least 7000, as the subtraction wraps around; every limit that the check of the chain parameters admits is respected with 7000 to spare. |
| `BlockAssembly.GoodAppend` | src/blockfactory.cpp:207-236 | Appending a final transaction whose parents are there and that fits keeps the block good and adds up size, signature operations and fee. |
| `BlockAssembly.TotalSublist` | src/blockfactory.cpp:233-235 | A selection without repeats weighs no more than what it is taken from. |
| `BlockAssembly.RoomForOne` | src/blockfactory.cpp:207-228 | If the whole pool fits, there is always room for one more. |
| `BlockAssembly.Highest` | src/blockfactory.cpp:162-165 | The entry with the highest priority. |
| `BlockAssembly.PickPriority` | src/blockfactory.cpp:160-166 | Takes an entry with the highest priority, and loses no other. |
| `BlockAssembly.Foremost` | src/blockfactory.cpp:62-71 | Of the postponed children, the one that comes first by score. |
| `BlockAssembly.PickCleared` | src/blockfactory.cpp:171-174 | Takes the postponed child that comes first by score, and loses no other. |
| `BlockAssembly.Pick` | src/blockfactory.cpp:159-174 | Takes the highest priority while that phase lasts, else the postponed child that comes first by score, else the next by score, and loses no other. |
| `BlockAssembly.MissesParent` | src/blockfactory.cpp:181-188 | True exactly if a parent is not in the block. |
| `BlockAssembly.ReleaseChildren` | src/blockfactory.cpp:249-266 | Every waiting child of the added transaction is queued again. |
| `BlockAssembly.Judge` | src/blockfactory.cpp:197-228 | A transaction goes in exactly if it is final, fits both budgets, and comes from the priority queue, pays the relay fee or finds the block below its minimum size. The search stops exactly at one that fails the fee test, at one with too many bytes when the block is within 100 of its limit or more than 50 did not fit into its last 1000, and at a final one with too many signature operations when at most one of those is left. |
| `BlockAssembly.AddAccounted` | src/blockfactory.cpp:230-266 | When a transaction is added and its children released, every other one that is not in the block is still in a queue, waits for a missing parent, or cannot go in any more. |
| `BlockAssembly.AppendFree` | src/blockfactory.cpp:198-202 | A transaction from the priority queue extends the free part, or ends it unless its priority may go free and it ends below the priority size. |
| `BlockAssembly.AppendPaid` | src/blockfactory.cpp:203-206 | Afterwards a transaction extends the second part if it pays the relay fee or the block is below its minimum size. |
| `BlockAssembly.AddedByPriority` | src/blockfactory.cpp:160-202 | While the priority phase lasts, only transactions from its queue are added. |
| `BlockAssembly.PhasedPaid` | src/blockfactory.cpp:196-206 | A block of these two parts asks a fee of every transaction but the first beyond the priority and minimum sizes. |
| `BlockAssembly.Include` | src/blockfactory.cpp:230-266 | Appends the transaction, adds up size, signature operations and fee, and queues the children that waited; nothing else is lost. |
| `BlockAssembly.Consider` | src/blockfactory.cpp:176-266 | Every round adds the transaction or leaves the block as it is; no other transaction is lost, the two parts of the block stay as promised, and the search stops only for a stated reason. With room for all, none is turned away. |
| `BlockAssembly.TakeTurn` | src/blockfactory.cpp:197-266 | The same for a transaction whose parents are all in the block. |
| `BlockAssembly.NobodyWaits` | src/blockfactory.cpp:181-195 | In an acyclic pool, if all that is missing waits for parents, nothing is missing. |
| `BlockAssembly.PhaseLasts` | src/blockfactory.cpp:197-228 | With room for all and every transaction free, paying or within the minimum size, the one looked at goes in, and the priority phase lasts as long as transactions depend on it. |
| `BlockAssembly.EndMeansMaximal` | src/blockfactory.cpp:157 | When the loop ends by itself, whatever is not in the block cannot go in or misses a parent. |
| `BlockAssembly.EndMeansFinished` | src/blockfactory.cpp:203-228 | When it stops, the block is within 1000 bytes or one signature operation of its limits, or a transaction that could follow does not pay and the block has its minimum size. |
| `BlockAssembly.MaximalMeansDone` | src/blockfactory.cpp:157 | If the whole pool fits, a block that can take no more is the whole pool. |
| `BlockAssembly.DryMeansIn` | src/blockfactory.cpp:160-170 | Without dependencies and with room for all, the priority queue runs dry only when everything is in the block. |
| `BlockAssembly.Start` | src/blockfactory.cpp:140-154 | At the start every transaction is in the priority queue, if there is such a phase, and in the order by score. |
| `BlockAssembly.Fill` | src/blockfactory.cpp:157-267 | The loop ends by a lexicographic measure, transactions not in the block and then pending queue entries; no transaction is then left out without one of the stated reasons. |
| `BlockAssembly.OrderKept` | src/blockfactory.cpp:157-267 | Without dependencies and with room for all, every round keeps the block in order of priorities during that phase and in order of scores without it. |
| `BlockAssembly.OrderMeans` | src/blockfactory.cpp:157-267 | At the end the block is in order of priorities if all are free, and is the list by score if there is no priority phase. |
| `BlockAssembly.OutcomeWithinLimit` | src/blockfactory.cpp:95-98 | Under a limit of at least 7000, or from 1000 up to 5049, every filled block respects it, whatever the settings. |
| `BlockAssembly.NoSigOpsLeft` | src/blockfactory.cpp:222-228 | Under a limit below 5050 no transaction fits beside the coinbase's signature operations. |
| `BlockAssembly.OutcomeBeyondLimit` | src/blockfactory.cpp:95-98 | Under every other limit there are settings and a pool for which a block is filled, and every one that can be filled is beyond the limit. |
| `BlockAssembly.BlocksWithinLimitIff` | src/blockfactory.cpp:95-98 | Filled blocks respect the limit, whatever the settings and the pool, exactly if it is at least 7000 or from 1000 up to 5049; so they respect every limit that the check of the chain parameters admits. |
| `BlockAssembly.PopulateBlock` | src/blockfactory.cpp:95-288 | From the operator's settings: no repeats, every transaction after all its parents, within both budgets and within every limit that the chain parameters may set, coinbase worth the fees plus the grant. The block has two parts: in the first all transactions but the last may go in free by their priority and end below the priority size, in the second all pay the relay fee or begin below the minimum size; so beyond both sizes every transaction but the first pays. What is left out is not final, does not fit or misses a parent, unless the search stopped because the block is nearly full or the next one does not pay. An acyclic pool that fits is taken whole; one without dependencies then in order of priority if all is free, and by score without a priority phase. |
| `ArithUint256.BaseUint.Add` | src/arith_uint256.h:135-145 | The sum modulo the range, also when a number is added to itself. |
| `ArithUint256.BaseUint.Increment` | src/arith_uint256.h:173-180 | One more, modulo the range. |
| `ArithUint256.BaseUint.Decrement` | src/arith_uint256.h:190-197 | One less, modulo the range. |
| `ArithUint256.BaseUint.Negated` | src/arith_uint256.h:77-84 | The negative, modulo the range. |
| `ArithUint256.BaseUint.Subtract` | src/arith_uint256.h:147-151 | The difference modulo the range, also from itself. |
| `ArithUint256.BaseUint.CompareTo` | src/arith_uint256.cpp:109-119 | Numeric order. |
| `ArithUint256.BaseUint.MultiplySmall` | src/arith_uint256.cpp:55-65 | The product with a limb, modulo the range. |
| `ArithUint256.BaseUint.AddRow` | src/arith_uint256.cpp:73-78 | One row of the product is added; what is dropped is a multiple of the range. |
| `ArithUint256.BaseUint.Multiply` | src/arith_uint256.cpp:67-81 | The product modulo the range if the operands are stored apart, and zero if they are not; so it is the product exactly if they are stored apart or the lower half of the number's bits is clear. |
| `ArithUint256.SquareVanishesIff` | src/arith_uint256.cpp:67-81 | A square is zero modulo the range exactly if the lower half of the number's bits is clear, which is when multiplying a number by itself in place is right. |
| `ArithUint256.SquareOfOneLost` | src/arith_uint256.cpp:67-81 | The number one, of any width, is an input that in-place multiplication by itself gets wrong. |
| `ArithUint256.BaseUint.ShiftLeft` | src/arith_uint256.cpp:21-36 | Multiplication by a power of two modulo the range, for any shift. |
| `ArithUint256.BaseUint.ShiftRight` | src/arith_uint256.cpp:38-53 | Division by a power of two, for any shift. |
| `ArithUint256.BaseUint.SpreadLimb` | src/arith_uint256.cpp:29-34 | The two parts of a shifted limb land in their places without colliding. |
| `ArithUint256.BaseUint.Bits` | src/arith_uint256.cpp:171-184 | The number of bits: the value is below that power of two and not below the one before. |
| `ArithUint256.BaseUint.QuotientBit` | src/arith_uint256.cpp:97-104 | One bit of the quotient is decided rightly. |
| `ArithUint256.BaseUint.Divide` | src/arith_uint256.cpp:83-107 | The floor quotient; division by zero fails after clearing. |
| `ArithUint256.CarryDone` | src/arith_uint256.h:173-180 | Where a carry ends, one was added. |
| `ArithUint256.HighestDiffers` | src/arith_uint256.cpp:112-117 | The highest differing limb decides the numeric order. |
| `ArithUint256.DivideStart` | src/arith_uint256.cpp:95-96 | Aligning the divisor loses no bit, and twice the aligned divisor exceeds the number. |
| `ArithUint256.DivideStep` | src/arith_uint256.cpp:97-104 | Quotient times divisor plus remainder stays the number, and the remainder shrinks below the next multiple. |
| `ArithUint256.RowDone` | src/arith_uint256.cpp:73-78 | The end of a row of the product: the carry beyond the top is a multiple of the range. |
| `Compact.EncodedValue` | src/arith_uint256.cpp:224-245 | Encoding rounds down to a multiple of the exponent's unit, and is exact up to three bytes. |
| `Compact.EncodedIsBest` | src/arith_uint256.cpp:204-245 | No compact value not above a number is larger than its encoding. |
| `Compact.BestOfAll` | src/arith_uint256.cpp:204-245 | The encoding is the largest of all compact values not above the number. |
| `Compact.OverflowExact` | src/arith_uint256.cpp:217-220 | The overflow test is exact: it fires exactly if the value needs more than 256 bits. |
| `Compact.SetCompact` | src/arith_uint256.cpp:204-222 | The value modulo the range, with exact negative and overflow flags. |
| `Compact.GetCompact` | src/arith_uint256.cpp:224-245 | The largest compact value not above the number; the sign bit is set exactly if asked for and the mantissa is not zero. |
| `Compact.HighBytes` | src/arith_uint256.cpp:226-233 | The three highest bytes, moved into place. |
| `Compact.GetLow64` | src/arith_uint256.h:245-249 | The value modulo two to the 64. |
| `Base58.CanonicalUnique` | src/base58.cpp:67-100 | Digits without a leading zero are determined by their number. |
| `Base58.EncodeBufferFits` | src/base58.cpp:75-76 | n * 138 / 100 + 1 digits hold every number of n bytes. |
| `Base58.DecodeBufferFits` | src/base58.cpp:32-33 | n * 733 / 1000 + 1 bytes hold every number of n digits. |
| `Base58.ToDigitsRight` | src/base58.cpp:67-100 | The digits of a number have its value and no leading zero. |
| `Base58.StripIsDigits` | src/base58.cpp:89-92 | A buffer without its leading zeros is the digits of its number. |
| `Base58.MultiplyAdd` | src/base58.cpp:79-85 | The carry loop multiplies and adds; buffer and final carry hold the result exactly. |
| `Base58.TakeDigit` | src/base58.cpp:40-47 | No carry is left over, so the assertion after the loop holds. |
| `Base58.ToBase58` | src/base58.cpp:75-92 | The digits of the number of the bytes, without leading zeros. |
| `Base58.EncodeBase58` | src/base58.cpp:67-100 | A one for every leading zero byte, then the digits. |
| `Base58.SkipSpaces` | src/base58.cpp:23-25 | Skips exactly the leading white space. |
| `Base58.SkipOnes` | src/base58.cpp:26-31 | Counts exactly the leading ones. |
| `Base58.ReadWord` | src/base58.cpp:32-49 | Succeeds exactly if all characters up to white space are digits, and then holds their number; no carry is left over. |
| `Base58.DecodeBase58` | src/base58.cpp:21-65 | The bytes of the text, or failure on a foreign character or on text after trailing white space. |
| `Base58.DecodeEncode` | src/base58.cpp:21-100 | The text of any bytes, in any white space, decodes to the bytes. |
| `Base58.EncodeDecode` | src/base58.cpp:21-100 | What decodes is the text of the result in white space. |
| `Base58.DecodesExactly` | src/base58.cpp:21-100 | A text decodes to bytes exactly if it is their text with white space around. |
| `Compressor.PackUnpack` | src/compressor.cpp:142-159 | Mantissa and exponent come back from the packed number. |
| `Compressor.UnpackPack` | src/compressor.cpp:161-185 | Every number is the packing of what it unpacks to. |
| `Compressor.StripUnique` | src/compressor.cpp:146-150 | Stripping zeros that were multiplied on gives the stripped amount. |
| `Compressor.DecompressCompress` | src/compressor.cpp:142-185 | Every amount comes back. |
| `Compressor.CompressDecompress` | src/compressor.cpp:142-185 | Every number is the compression of its decompression: a bijection. |
| `Compressor.CompressedBound` | src/compressor.cpp:142-159 | A compressed amount is at most ten times as large, so money never overflows 64 bits. |
| `Compressor.CompressAmount` | src/compressor.cpp:142-159 | The loop computes the compression. |
| `Compressor.DecompressAmount` | src/compressor.cpp:161-185 | The loop computes the decompression. |
| `Compressor.ReadWriteVarInt` | src/serialize.h:344-372 | An integer reads back, and nothing after it is touched. |
| `Compressor.ReadWriteInt` | src/serialize.h:343-372 | A signed integer reads back exactly if it is not negative, and otherwise as its low seven bits. |
| `Compressor.WriteVarInt` | src/serialize.h:344-358 | The loop from the last byte to the first writes the form. |
| `Compressor.ShortFormExact` | src/compressor.cpp:48-140 | A short form has the announced size and expands to the script it came from. |
| `Compressor.ReadWriteScript` | src/compressor.h:66-91 | A script reads back, and nothing after it is touched. |
| `Compressor.ReadWriteTxOut` | src/compressor.h:108-120 | An output reads back, and nothing after it is touched. |
| `CoinsCodec.CalcMaskSize` | src/coins.cpp:17-33 | Counts the bytes up to the last used one and the used ones. |
| `CoinsCodec.CleanMask` | src/coins.cpp:17-33 | Without spent outputs at the end, the last byte of the mask is used. |
| `CoinsCodec.MaskByteReads` | src/coins.h:191-197 | A byte of the mask is zero exactly if unused, and reads back as its bits. |
| `CoinsCodec.BuildMaskByte` | src/coins.h:191-197 | The loop builds the byte bit by bit. |
| `CoinsCodec.MaskEndsItself` | src/coins.h:219-229 | Counting the used bytes finds the end of the mask. |
| `CoinsCodec.ReadWriteOuts` | src/coins.h:198-202 | The outputs read back, padded with spent ones to the size of the mask. |
| `CoinsCodec.CodeReads` | src/coins.h:182-189 | Coinbase, first two outputs and mask size come back from the code word. |
| `CoinsCodec.BodyReads` | src/coins.h:214-239 | Mask, outputs and height read back into the record, whatever the version. |
| `CoinsCodec.UnserializeSerialize` | src/coins.h:178-239 | Every unpruned, cleaned-up record reads back exactly if and only if its version is not negative; otherwise only the version is wrong, being cut to its low seven bits. Nothing after it is touched. |
| `UndoCodec.UndoReadsBackIff` | src/undo.h:36-53 | Undo data reads back exactly if and only if it has a height and a version that is not negative, or neither; otherwise only the version is wrong. |
| `UndoCodec.RecordedReadsBackIff` | src/undo.h:36-53 | What is recorded when an output is spent survives being written exactly if other outputs of its transaction are left or the version is not negative. |
| `UndoCodec.MinusOneLost` | src/undo.h:36-53 | Version minus one reads back as 127. |
| `StoredVersions.StoredExactIff` | src/coins.h:179-205 | Records that go through the coin database come back exactly if none of them has a negative version. |
| `StoredVersions.SameVerdict` | src/main.cpp:1989-2118 | No verdict on a block depends on a version. |
| `StoredVersions.SameApplyTxs` | src/main.cpp:1599-1625 | Connecting the same block keeps two sets of coins the same but for lost versions. |
| `StoredVersions.SameRecorded` | src/main.cpp:1605-1618 | And so is the undo data recorded. |
| `StoredVersions.SameRemove` | src/main.cpp:1898-1915 | The outputs of a transaction are still found when its negative version was lost, as it is patched before they are compared. |
| `StoredVersions.SameUndoTxs` | src/main.cpp:1893-1929 | Undo data that lost versions still undoes a block cleanly, up to lost versions. |
| `StoredVersions.ConnectKeeps` | src/main.cpp:2396-2446 | Connecting through the files keeps the coins those of the naive replay but for lost versions. |
| `StoredVersions.TipComesOff` | src/main.cpp:2338-2357 | With what is on file the tip can always be disconnected cleanly, and the coins of its parent come back but for lost versions. |
| `StoredVersions.StepKeeps` | src/main.cpp:2338-2446 | Connecting, disconnecting and storing any records at any time keep that. |
| `StoredVersions.RunSane` | src/main.cpp:2338-2446 | After every run of connecting, disconnecting and storing in any order, coins and files are those of the naive replay but for negative versions. |
| `StoredVersions.VersionsDoNotMatter` | src/main.cpp:1905-1909 | After every such run the verdict on every block is that on the naive replay, the tip can be disconnected, and the coins are exactly the replay if no version in it is negative. |
| `StoredVersions.SameChain` | src/main.cpp:2338-2446 | After every such run the active chain is the one of a node that keeps no coins, replays its chain for every verdict, and takes the last block off whenever asked to. |
| `BlocksInFlight.WithoutRight` | src/main.cpp:389 | Taking one block out of a queue without repeats. |
| `BlocksInFlight.ReceiveKeeps` | src/main.cpp:376-394 | Receiving a block keeps index, queues and all counters exact. |
| `BlocksInFlight.RequestKeeps` | src/main.cpp:399-418 | Requesting a block not in flight keeps them exact. |
| `BlocksInFlight.ArriveKeeps` | src/main.cpp:338-343 | A new peer keeps them exact. |
| `BlocksInFlight.PreferKeeps` | src/main.cpp:328-336 | Changing a preference keeps them exact. |
| `BlocksInFlight.LeaveKeeps` | src/main.cpp:345-372 | A peer leaving with its queue keeps them exact. |
| `BlocksInFlight.ExactConsequences` | src/main.cpp:366-371 | Counters are never negative; without peers nothing is in flight and nothing counted, so the last-peer assertions hold. |
| `BlocksInFlight.DownloadingSinceFirst` | src/main.cpp:282-285 | After any requests to and receipts from a peer, in any order and with a clock that does not go back, the recorded time is the one when the first block of its queue became the first. |
| `BlocksInFlight.Downloads.constructor` | src/main.cpp:223-230 | Without peers everything is exact. |
| `BlocksInFlight.Downloads.InitializeNode` | src/main.cpp:338-343 | A new peer starts empty; a known one stays. |
| `BlocksInFlight.Downloads.UpdatePreferredDownload` | src/main.cpp:328-336 | Exactly the preference of the peer changes, and the count with it. |
| `BlocksInFlight.Downloads.MarkBlockAsReceived` | src/main.cpp:374-396 | Exactly the requested block leaves index and queue, the peer's clocks follow, and the result says whether it was requested. |
| `BlocksInFlight.Downloads.MarkBlockAsInFlight` | src/main.cpp:398-418 | The block is withdrawn from whoever had it and is last in the peer's queue; the index names the peer. |
| `BlocksInFlight.Downloads.FinalizeNode` | src/main.cpp:345-372 | The peer and everything requested from it are gone; after the last peer all counters are zero. |

## Left out

- Blocks without a transaction payload, which connecting and disconnecting treat differently.
- Script, signature and header checks, proof of cooperation, and the dynamic chain parameters: their answers are parameters (`Answers`).
- Reject reasons and scores, logging, wallet and memory pool notifications around connecting and disconnecting.
- Disk errors, pruning, reindexing, and shutdown; the block and undo files are maps.
- Blocks that arrive between two rounds of making the best chain active, refusals that may come from corrupted data and are not marked, and forgetting marks on request.
- The build with coin supply enabled.
- The stop of worker threads of the check queue at shutdown, and its interruption.
- Selecting an address and an address's chance, which are floating point; reading and writing the address file; clearing a manager that is in use.
- Wrap-around of 32-bit counters: transaction counts along a path, sequence numbers, address ids, attempts, tree positions.
- The memory pool: sizes, fees, priorities and the parent relation are parameters of block assembly.
- Decompressing a public key is a parameter, assumed to invert dropping its second half (`KeysRight`).
- Base58 with checksums and the address types on top of it.
- The list sizes around undo data in the undo files.
- Network messages, the HTTP server, RPC, command-line tools and initialisation.
- ChainState.ChainStateManager.ConnectTip: leaves out the memory pool, which does not touch coins, chain or undo data, and the failed mark after a refusal, which `ConnectOne` sets.
- ChainState.ChainStateManager.BackToFork: requires the target to descend from the active chain's first block, because without it the code would disconnect the genesis block; `RootShared` shows that every linked block does.
- BlockConnect.CheckTransaction: leaves out the size limit and the length of a coinbase's script, because the model keeps neither; both are among the outside answers.
- BlockConnect.CheckBlockShape: states only what the transactions contribute to checking a block, because headers and payloads are outside this model.
- BlockConnect.ConnectBlock: requires of the view what its callers give it, a sound cache over restorable coins of at most MAX_MONEY that hides no unspent record of the block's transactions; `ConnectThrough` shows that the fresh cache of the source is such a view.
- BlockConnect.ApplyTxInUndo: does not say what the coins are when the data does not fit, because the view is then thrown away.
- BlockConnect.RemoveOutputs: does not say what the coins are when the outputs do not match, because the view is then thrown away.
- BlockConnect.DisconnectBlock: does not say what the coins are on failure, because the view is then thrown away.
- ActivateChain.ChainActivator.constructor: requires one genesis block, which is accepted, and data for all linked blocks, because headers without a known parent are turned away and pruning is outside this model.
- BlockAssembly.PopulateBlock: leaves open which of several transactions of the same priority comes first, because the source's heap does; the order by score is a parameter, because scores belong to the memory pool; priorities are exact numbers where the source has floating point.
- BlockArrival.BlockIndexMap.ReceivedBlockTransactions: requires that no data of the block arrived before, because a block whose data is on file is turned away (src/main.cpp:3236) and pruned data, which may come again, is outside this model.
- MostWork.ChainSelector.FindMostWorkChain: says which candidates are dropped, not which blocks wait again (`EraseDownTo` does), and that the candidates stay complete only without pruned data, because pruned blocks leave the candidates until their data comes again.
- BlocksInFlight.Downloads.FinalizeNode: leaves out orphan transactions and the sync counter, which do not touch the downloads.
- AddrMan.CAddrMan.Check: takes as given that ids are below the counter and that registered addresses belong to entries, because the source does not look at either.
- Base58.DecodeBase58: rejects a string that contains a zero character, where the source reads a C string and stops there; on C strings, which contain none, the two agree.
- Compressor.WriteVarInt: has no limit on the size of the integer, because every width the source uses is covered.
- Coins.DynamicUsage: counts sizes and not capacities of vectors, because capacities depend on the allocator.
- BlockTree.BlockIndex.constructor: leaves out time, status and signers, which the tree does not use.
