# Verified models of the node's core data structures and codecs

This project models, in Dafny, the self-contained logic a Bitcoin/PIVX-derived node rests on, and
proves what that logic is relied on for. Each area has a value-level model with its theorems and,
where the source updates state in place, classes or methods that are proved to compute the model.

- **Address manager** (`AddrManModel`, `AddrManInvariant`, `AddrManOperations`, `AddrManEffects`,
  `AddrManCollisions`, `AddrManSample`, `AddrManSelect`, `AddrManRuns`, `AddrManCheck`, `AddrManDisk`,
  `AddrManFormat`, `AddrManLoad`, `AddrManStreams`, `AddrManHarmless`, `AddrManager`).
  `Inv` is the structural invariant: entry map, host index, random order, both bucket tables,
  reference counts, counters and pending collisions. `AddrManEffects` and `AddrManCollisions` say what
  each operation makes of the tables and entries. Hashes are arbitrary functions of key, address
  and source; random draws and the clock are arguments. The two-dimensional tables are flat, slot
  `bucket * 64 + position`.
- **Coin caches** (`CoinsModel`, `CoinsRefinement`, `CoinsEffects`, `CoinsCaches`). A stack of write-back caches of
  any depth over a database refines a stack of plain maps, one per level.
- **Cuckoo cache** (`CuckooModel`, `CuckooProofs`, `CuckooEffects`, `CuckooSmallTables`, `CuckooCache`).
  Eight-way placement with lazy garbage flags and epoch ageing, for every hash function.
- **Script-check queue** (`CheckQueueModel`, `CheckQueueProofs`, `CheckQueueBatches`, `CheckQueue`).
  One master and any number of workers; a step is one critical section, and every interleaving is covered.
- **Big integers and compact targets** (`ArithValue`, `ArithUint`, `ArithShift`, `ArithDivide`,
  `ArithCompact`). Little-endian 32-bit limbs in arrays, with the value `Val` they stand for.
- **Bech32** (`Bech32Checksum`, `Bech32Field`, `Bech32Distance`, `Bech32`, `Bech32Vectors`). Codec,
  checksum, two standard strings, and the promise that up to three wrong symbols within 1023 are detected, proved through the roots of the
  generator polynomial in the field with 1024 elements.
- **Base58** (`Digits`, `Base58`). Change of base in a fixed buffer, with and without a checksum.
- **Denominations** (`DenominationModel`, `DenominationSpends`, `DenominationFunctions`). Exact
  spends from a bounded supply, over any ascending list of values that divide each other.
- **Bloom filters** (`BloomModel`, `BloomLimit`, `BloomFilters`) and the **active chain**
  (`BlockTree`, `BlockChain`).

`Basics` holds the few definitions and facts that several of these share.

Integers are unbounded except where a width is written out (limbs, 32-bit products in the cuckoo
setup, the rolling filter's counter, checksum words as bit vectors).

Properties that fail for some inputs are proved with the exact condition: discardable slots in small
cuckoo tables, the wrapping size of the rolling filter, in-place squaring, spending passes that never
end, and address streams with repeated hosts or negative counters.

Where code and comments differ the code is modelled. `cache::insert` says that its first eviction
uses `locs[0]`, but `(1 + 8) & 7` selects `locs[1]` (src/cuckoocache.h:394-402). `getIdealSpends`
says it returns the coin set used, but `map::insert` leaves counts that are already in the map, so
its result adds to them (src/denomination_functions.cpp:100-101).

## Model

| member | source | states |
|---|---|---|
| `AddrManOperations.MakeTriedOk` | src/addrman.cpp:152-198 | moving an entry to the tried table, evicting the holder of its slot back to new, restores the full invariant; the entry ends up tried and exactly one tried slot changes |
| `AddrManOperations.GoodInv` | src/addrman.cpp:200-262 | marking an address good keeps the invariant, empties no tried slot and creates no entry; what becomes of the entry is GoodEffects |
| `AddrManOperations.UntriedIsInSomeBucket` | src/addrman.cpp:225-246 | an untried entry sits in some new bucket at its hash position, so the "something bad happened" exit is unreachable |
| `AddrManOperations.InsertOk` | src/addrman.cpp:305-335 | placing an entry in a new bucket, or dropping one that finds no place, keeps the invariant and the tried table; where it is placed is InsertEffects |
| `AddrManOperations.AddInv` | src/addrman.cpp:264-335 | adding an address keeps the invariant for every outcome of the dice and leaves pending collisions alone; what is stored is AddNewEffects and AddKnownEffects |
| `AddrManOperations.AttemptInv` | src/addrman.cpp:337-357 | recording an attempt keeps the invariant |
| `AddrManOperations.ConnectedInv` | src/addrman.cpp:504-522 | refreshing the time of a connected address keeps the invariant |
| `AddrManOperations.SetServicesInv` | src/addrman.cpp:524-540 | updating service flags keeps the invariant |
| `AddrManOperations.GetAddrInv` | src/addrman.cpp:483-502 | sampling shuffles the random order and keeps the invariant |
| `AddrManOperations.ResolveFromInv` | src/addrman.cpp:546-596 | resolving collisions in id order keeps the invariant, frees no tried slot, and only removes pending ids; who wins is ResolveEffects |
| `AddrManOperations.PendingHasRival` | src/addrman.cpp:598-622 | a pending id that is still known points at an occupied tried slot with a tried entry, so no lookup of -1 happens |
| `AddrManOperations.SelectCollisionInv` | src/addrman.cpp:598-622 | choosing a collision keeps the invariant, also when it drops an unknown id |
| `AddrManEffects.FindIff` | src/addrman.cpp:78-89 | a host leads to an entry if and only if the entry has that host, and to none if no entry has it |
| `AddrManEffects.FindExactIff` | src/addrman.cpp:206-216 | an exact match exists if and only if some entry has this host and port |
| `AddrManEffects.MakeTriedFree` | src/addrman.cpp:152-198 | into an empty tried slot: the entry leaves every new bucket and takes the slot, and no other entry or slot changes |
| `AddrManEffects.MakeTriedEvicts` | src/addrman.cpp:171-197 | into an occupied tried slot: its holder becomes untried and gets the one new slot its own source selects, and only the entry there can lose a reference |
| `AddrManEffects.GoodEffects` | src/addrman.cpp:200-262 | for every known address: success time, attempt time and failure count are set; an untried entry becomes tried and takes its slot if that is empty or no test is asked for; otherwise no table changes and the entry is pending exactly if it was or fewer than ten were; an entry tried already stays put |
| `AddrManEffects.GoodUnknown` | src/addrman.cpp:204-216 | for an address that is unknown, or known with another port, only the time of the last success is noted |
| `AddrManEffects.ClearNewEffects` | src/addrman.cpp:137-150 | clearing a slot costs its holder one reference, and its entry if that was the last; nothing else changes |
| `AddrManEffects.InsertEffects` | src/addrman.cpp:305-335 | an entry gains the slot its address and the source select if that is empty, held by a terrible entry, or held by one with several references while it has none; otherwise nothing moves, and without any reference it is forgotten |
| `AddrManEffects.AddAnswer` | src/addrman.cpp:264-335 | the answer is true if and only if the address is routable and no entry has its host |
| `AddrManEffects.AddNewEffects` | src/addrman.cpp:300-335 | a new host is stored with its address, source, penalised time and one reference in the slot they select if that is available, and is then found; otherwise the host stays unknown and both tables are as before |
| `AddrManEffects.AddKnownEffects` | src/addrman.cpp:276-335 | a known host has its time and services refreshed; it gains the slot the source selects if the announcement is new, the entry untried with fewer than eight references, the dice fall on zero and the slot is available; otherwise nothing moves |
| `AddrManEffects.AddUnroutable` | src/addrman.cpp:266-267 | an unroutable address changes nothing and the answer is false |
| `AddrManEffects.TerribleIff` | src/addrman.cpp:36-54 | an entry is terrible exactly if it was not tried within 60 seconds and its time is over ten minutes ahead, unset or over thirty days old, or three attempts had no success, or ten failed with no success for a week |
| `AddrManEffects.AttemptEffects` | src/addrman.cpp:337-357 | only the exact address changes: its last attempt, and its failures if none was counted since the last success of any address |
| `AddrManEffects.ConnectedEffects` | src/addrman.cpp:504-522 | only the exact address changes: its time, if more than twenty minutes old |
| `AddrManEffects.SetServicesEffects` | src/addrman.cpp:524-540 | only the services of the exact address change |
| `AddrManCollisions.ResolveEffects` | src/addrman.cpp:546-596 | a pending entry is dropped, and nothing else happens, if it is unknown or invalid or its rival succeeded in the last four hours; it takes the slot and the rival returns to the new table if the rival was last tried between one minute and four hours ago; otherwise nothing changes |
| `AddrManCollisions.EveryPendingHasItsTurn` | src/addrman.cpp:546-596 | every pending entry has exactly one turn, in the state the smaller ids leave, and stays pending exactly if it waits there |
| `AddrManCollisions.UnknownIsDropped` | src/addrman.cpp:553-566 | a pending entry that is unknown or invalid at the start is not pending at the end |
| `AddrManCollisions.SelectEffects` | src/addrman.cpp:598-622 | a known pending entry yields the tried holder of its slot and nothing changes; an unknown one is dropped and the answer is blank |
| `AddrManSample.LimitIs` | src/addrman.cpp:485-487 | the sample is limited to 23% of the entries, rounded down, and to 2500 |
| `AddrManSample.AnswersExactly` | src/addrman.cpp:483-502 | the answers that random choices can produce are exactly the quality entries, up to the limit, of every order of all entries: every order can come out |
| `AddrManSample.GetAddrAnswers` | src/addrman.cpp:483-502 | whatever the random choices, the answer holds addresses of entries that are not terrible, no host twice, at most the limit, and all of them if the limit is not reached |
| `AddrManSelect.ChanceBounds` | src/addrman.cpp:56-76 | every entry keeps a chance of at least 0.00036; one that never failed and was not tried for ten minutes is taken at once |
| `AddrManSelect.ChanceFalls` | src/addrman.cpp:56-76 | more failures or a later attempt never raise the chance |
| `AddrManSelect.SomethingToStopAt` | src/addrman.cpp:359-403 | the table that is searched always has an occupied slot, so the walk has where to end |
| `AddrManSelect.SearchFinds` | src/addrman.cpp:369-403 | whatever is drawn, the first candidate whose odds beat the draw is taken, at the latest the 45th |
| `AddrManSelect.SelectFinds` | src/addrman.cpp:359-403 | nothing is selected if and only if there is nothing to select; otherwise a known entry, tried exactly if the tried table was searched, so both asserted lookups succeed |
| `AddrManInvariant.ClearNewOk` | src/addrman.cpp:137-150 | clearing a new slot, deleting the entry if that was its last reference, keeps the invariant |
| `AddrManInvariant.DeleteOk` | src/addrman.cpp:123-135 | deleting an unreferenced entry keeps random order, host index, tables and counters consistent |
| `AddrManInvariant.SwapRandomOk` | src/addrman.cpp:103-121 | swapping two random positions keeps positions and entries mutually inverse |
| `AddrManInvariant.CreateOk` | src/addrman.cpp:91-101 | creating an entry adds exactly that entry to those not yet placed and not yet counted, and keeps everything else of the invariant |
| `AddrManRuns.RunFromEmpty` | src/addrman.cpp:91-335 | every sequence of operations from an empty manager, for every hash and every random choice, keeps the invariant |
| `AddrManRuns.TriedSlotStaysOccupied` | src/addrman.cpp:171-197 | along every run a tried slot once occupied is never empty again |
| `AddrManRuns.GetAddrSamples` | src/addrman.cpp:483-502 | the sample is the non-terrible addresses of a prefix of the shuffled order, without repetition, and the prefix ends only at the limit or the end |
| `AddrManCheck.PassesIsOk` | src/addrman.cpp:406-480 | if the consistency checker passes, the structure satisfies the invariant (given id range and host agreement, which it does not look at) |
| `AddrManCheck.OkPasses` | src/addrman.cpp:406-480 | a structure that satisfies the invariant passes the checker |
| `AddrManCheck.CheckIsInvariant` | src/addrman.cpp:406-480 | the checker's verdict and the invariant are equivalent |
| `AddrManCheck.EveryRunPassesCheck` | src/addrman.cpp:406-480 | after every run from an empty manager with a non-null key and a positive clock the checker returns 0 |
| `AddrManDisk.SectionSizes` | src/addrman.h:317-364 | the new and tried sections written have exactly nNew and nTried entries, so both asserts in Serialize hold |
| `AddrManFormat.StreamLayout` | src/addrman.h:317-349 | the stream starts with version 1, key size 32, the key, both counters and 1024 with bit 30 flipped; every entry follows at the place its rank among the ids of its kind gives it, with its six persistent fields |
| `AddrManFormat.BucketLayout` | src/addrman.h:350-363 | each bucket is written as the number of its occupied slots and, slot by slot, the place of the entry among the new entries of the stream |
| `AddrManFormat.HeaderMeans` | src/addrman.h:373-385 | only a 32-byte key is read; references are used exactly in version 1 with 1024 buckets; only version 0 writes that number without flipping bit 30 |
| `AddrManFormat.OldStreamKeepsFirst` | src/addrman.h:388-443 | of a stream of another version or bucket count exactly those new entries are kept that no earlier one competes with for the slot of their own source |
| `AddrManDisk.RoundTrip` | src/addrman.h:317-462 | reading back what was written consumes all of it and gives an isomorphic manager: a renaming of ids keeps addresses, persistent fields, reference counts and every slot of both tables; nothing is lost or pruned |
| `AddrManHarmless.HarmlessIff` | src/addrman.h:367-462 | a stream that can be read, of any version and bucket count, gives a manager that satisfies the invariant for all hashes if and only if its counters are not negative and any two entries of one host are both new, usable and listed by no bucket, or both tried with the same address |
| `AddrManHarmless.LoadedIsSound` | src/addrman.h:367-462 | a harmless stream is read into a sound manager, whatever is lost to collisions or pruned |
| `AddrManHarmless.LoadedSoundIff` | src/addrman.h:367-462 | for one choice of hashes, the manager read is sound if and only if the counters are not negative and no entry that survives pruning shares its host with another entry read |
| `AddrManLoad.PruneIff` | src/addrman.h:445-456 | pruning the entries without references leaves a sound manager if and only if no survivor shares its host |
| `AddrManStreams.LoadedReflects` | src/addrman.h:388-443 | before pruning, every new entry stands as read, every tried entry finds its slot taken, every tried id comes from the stream, and with usable buckets only listed entries have references |
| `AddrManHarmless.TablesAlike` | src/addrman.h:367-443 | whether a stream can be read to its end does not depend on the hashes |
| `AddrManHarmless.NegativeCountIsUnsound` | src/addrman.h:378-405 | every stream with a negative counter that can be read breaks the invariant |
| `AddrManHarmless.RepeatedHostIsUnsound` | src/addrman.h:388-456 | a stream with the same entry twice is read and leaves an entry its host no longer leads to, for all hashes |
| `AddrManager.Manager.SwapRandomPositions` | src/addrman.cpp:103-121 | the two entries exchange places in the order and in their stored positions, as SwapRandomOk needs |
| `AddrManager.Manager.CreateEntry` | src/addrman.cpp:91-101 | the fresh id is the last of the random order and is reached from its host; the state is the one CreateOk covers |
| `AddrManager.Manager.DeleteEntry` | src/addrman.cpp:123-135 | the swap to the back and the three removals forget exactly one entry, under the asserts of the source |
| `AddrManager.Manager.ClearNewSlot` | src/addrman.cpp:137-150 | emptying a slot drops one reference and deletes the entry with its last one, under the asserts of the source |
| `AddrManager.Manager.MakeTriedEntry` | src/addrman.cpp:152-198 | the scan over all new buckets removes every reference, and the evicted holder lands in its own new slot; both asserts hold |
| `AddrManager.Manager.MarkGood` | src/addrman.cpp:200-262 | the outcome is the one GoodEffects describes, whatever random bucket the search starts at, and the invariant holds afterwards |
| `AddrManager.Manager.AddAddress` | src/addrman.cpp:264-335 | answer and outcome are those of AddAnswer, AddNewEffects and AddKnownEffects, and the invariant holds afterwards |
| `AddrManager.DoubledTimes` | src/addrman.cpp:298-304 | the doubling loop yields two to the reference count |
| `AddrManager.Manager.AttemptAddress` | src/addrman.cpp:337-357 | the invariant holds afterwards; a failure is counted only if none was counted since the last good time |
| `AddrManager.Manager.MarkConnected` | src/addrman.cpp:504-522 | the invariant holds afterwards; the time of the exact address is refreshed only when it is more than 20 minutes old |
| `AddrManager.Manager.UpdateServices` | src/addrman.cpp:524-540 | the invariant holds afterwards; only the service flags of the exact address change |
| `AddrManager.Manager.CollectAddresses` | src/addrman.cpp:483-502 | the answer is the sample AnswersExactly and GetAddrAnswers describe, within the limit of LimitIs, and the invariant holds afterwards |
| `AddrManager.Manager.SelectEntry` | src/addrman.cpp:359-403 | the loops select the entry SelectFinds describes and always end |
| `AddrManager.Manager.ResolveCollisions` | src/addrman.cpp:546-596 | every pending entry gets the verdict of ResolveEffects in ascending order, for every bucket each search starts at; no asserted lookup fails and the invariant holds afterwards |
| `AddrManager.Manager.SelectCollision` | src/addrman.cpp:598-622 | a pending id that is known gives a tried entry of the manager, an unknown one is dropped from the pending set, and the invariant holds afterwards |
| `AddrManager.Manager.Check` | src/addrman.cpp:406-480 | the checking loops return 0 exactly when the checker's conditions hold |
| `AddrManager.Manager.Save` | src/addrman.h:317-364 | the running numbers the loops assign are the ranks of the ids, so the stream is the one RoundTrip reads back |
| `AddrManager.Manager.Load` | src/addrman.h:367-462 | into an empty manager, failure is reported exactly on a malformed stream; otherwise the state is the model's, which RoundTrip characterises for written streams, and every harmless stream gives a manager that satisfies the invariant |
| `CoinsRefinement.FetchKeeps` | src/coins.cpp:38-54 | fetching fills caches at every level and changes nothing any level shows |
| `CoinsRefinement.AddCoinRefines` | src/coins.cpp:66-95 | adding where no unspent coin exists, or with overwrite allowed, updates the top map and keeps FRESH and DIRTY honest |
| `CoinsRefinement.AddCoinNeedsNoCoin` | src/coins.cpp:66-95 | without overwrite, the call completes and keeps the invariant if and only if no unspent coin is visible; it throws exactly if the cache itself holds one |
| `CoinsRefinement.SpendCoinRefines` | src/coins.cpp:97-113 | spending removes the coin from the top map, also when a FRESH entry is erased outright |
| `CoinsRefinement.UncacheRefines` | src/coins.cpp:213-220 | dropping a clean entry changes no level |
| `CoinsRefinement.BatchWriteShows` | src/coins.cpp:149-203 | after a batch write the parent shows exactly what the child showed |
| `CoinsRefinement.FlushRefines` | src/coins.cpp:205-211 | a flush makes the base equal to the cache, empties the cache, and never trips the FRESH check |
| `CoinsRefinement.RunRefines` | src/coins.cpp:38-220 | for any depth and any legal sequence of push, discard, fetch, add, spend, uncache and flush, every level shows its plain map, FRESH means the parent shows nothing, and no exception is thrown |
| `CoinsRefinement.NewStackRuns` | src/coins.cpp:32-220 | every legal run from a new cache over any database refines the plain maps, keeps the flags honest and never throws |
| `CoinsRefinement.IllegalAddThrowsLater` | src/coins.cpp:66-95 | the caller's obligation is needed: one illegal add completes and the next flush throws "FRESH flag misapplied" |
| `CoinsEffects.AddThenSpend` | src/coins.cpp:66-113 | a coin new to the cache that is added and spent again leaves the stack exactly as it was |
| `CoinsEffects.OverwriteThenSpend` | src/coins.cpp:66-113 | a coin that may exist below and is spent leaves a DIRTY spent entry to be written back |
| `CoinsEffects.UnspendableIgnored` | src/coins.cpp:66-68 | an output that starts with OP_RETURN, or with a script over 10000 bytes, never enters a cache |
| `CoinsEffects.FetchFills` | src/coins.cpp:38-54 | every cache down to the first that knows the coin holds a copy afterwards, clean, or FRESH if spent; if none knows it nothing changes |
| `CoinsEffects.FetchThenUncache` | src/coins.cpp:38-220 | fetching an unspent coin copies it as a clean entry, and uncaching removes exactly that copy |
| `CoinsEffects.UncacheExact` | src/coins.cpp:213-220 | an entry goes if and only if it has no flag, and no other entry changes |
| `CoinsEffects.AddCoinExact` | src/coins.cpp:66-95 | the entry added is DIRTY, and FRESH exactly if it was or if, without overwrite, nothing was waiting to be written for it |
| `CoinsEffects.OnlyDirtyMoves` | src/coins.cpp:149-203 | an entry that is not DIRTY leaves the parent as it is |
| `CoinsEffects.DirtyArrives` | src/coins.cpp:149-203 | a DIRTY entry arrives DIRTY with the parent's FRESH flag, or its own if the parent had none; spent and FRESH, it is left out or erased |
| `CoinsEffects.FlushTwice` | src/coins.cpp:205-211 | a flush leaves no entry, and a second one changes nothing |
| `CoinsEffects.RunStoresNoSpent` | src/coins.cpp:38-220 | along every run, legal or not, a database without spent coins never comes to hold one |
| `CoinsCaches.CoinsCache.Fetched` | src/coins.cpp:38-54 | after the recursive fetch every cache on the way holds what its base delivered, clean, or FRESH if it was a spent coin; nothing else changes |
| `CoinsCaches.CoinsCache.GetCoin` | src/coins.cpp:56-64 | the answer is what the nearest level knows, which may be a coin remembered as spent, and every cache on the way keeps a copy |
| `CoinsCaches.CoinsCache.HaveCoin` | src/coins.cpp:125-129 | true exactly when an unspent coin is visible through the whole stack |
| `CoinsCaches.CoinsCache.AddCoinTo` | src/coins.cpp:66-95 | throws exactly when told not to overwrite an unspent entry, and then leaves the cache alone; otherwise the new entry has the flags that AddCoinRefines proves sound |
| `CoinsCaches.CoinsCache.Spend` | src/coins.cpp:97-113 | the coin that was visible is moved out and the cache is left as SpendCoinRefines requires |
| `CoinsCaches.CoinsCache.UncacheCoin` | src/coins.cpp:213-220 | only a clean, non-FRESH entry is forgotten, which UncacheRefines shows to be invisible |
| `CoinsCaches.CoinsCache.WriteBatch` | src/coins.cpp:149-203 | the merging loop computes the model in any order of entries, and throws exactly when some FRESH flag is misapplied, at which point the entries left over are exactly the unmerged ones |
| `CoinsCaches.CoinsCache.FlushToBase` | src/coins.cpp:205-211 | the base receives every dirty entry and the cache ends empty, so FlushRefines applies to the objects; if the base throws, the entries not yet merged stay and the others are merged |
| `CuckooProofs.LiveIsFound` | src/cuckoocache.h:443-453 | an element that is live at one of its locations is found |
| `CuckooProofs.InsertLosesAtMostOne` | src/cuckoocache.h:368-416 | of the elements live before the call and the new one, or of the current epoch's and the new one when the epoch ends, all but at most one are found afterwards; every live element sits at one of its eight locations |
| `CuckooProofs.InsertWithRoom` | src/cuckoocache.h:374-391 | if the element is present or one of its locations is garbage, nothing that the epoch check keeps is lost and the element is found |
| `CuckooProofs.EpochCheckExact` | src/cuckoocache.h:264-296 | no element moves; unless the counter has run out and the current epoch is full every flag stays, and then the live slots of the current epoch are exactly those that stay live, as the old epoch; the counter goes down by one, or is set to a whole epoch, or to the room left but at least epoch_size/16 and 1 |
| `CuckooEffects.InsertPresent` | src/cuckoocache.h:376-381 | a stored element stays at the first location that holds it, live and in the current epoch; no other slot changes |
| `CuckooEffects.InsertFree` | src/cuckoocache.h:382-391 | a missing element goes to the first of its locations that may be overwritten; no other slot changes |
| `CuckooEffects.InsertEvicts` | src/cuckoocache.h:392-403 | with no such location the element at the second location is the first taken out |
| `CuckooEffects.EvictionContinues` | src/cuckoocache.h:392-415 | an element taken from its way w is put where way w + 1 modulo 8 leads, and what was there goes on with its own epoch flag |
| `CuckooEffects.EvictionEnds` | src/cuckoocache.h:382-391 | the loop ends at the first location that may be overwritten, which gets the element with its epoch flag |
| `CuckooEffects.NotMovedBack` | src/cuckoocache.h:392-402 | the element just put in is not the next to be moved if the eight locations of the evicted one differ |
| `CuckooEffects.EraseExact` | src/cuckoocache.h:443-453 | a lookup succeeds exactly if a location holds the element; erasing flags the first such slot and nothing else |
| `CuckooEffects.SetupExact` | src/cuckoocache.h:315-329 | a new cache holds nothing live, has two to the depth slots and waits for an epoch of 45% of them, rounded down |
| `CuckooProofs.DisplaceKeeps` | src/cuckoocache.h:382-416 | the eviction chain conserves elements: what was live and what is in hand is live or is the one dropped |
| `CuckooProofs.DisplaceCounts` | src/cuckoocache.h:403-415 | the chain adds at most one live entry, and to the inserted element's own epoch |
| `CuckooProofs.EpochCheckBounded` | src/cuckoocache.h:264-296 | the epoch check restores room for one more entry within the epoch bound |
| `CuckooProofs.ErasePlaced` | src/cuckoocache.h:443-453 | an erasing lookup loses no other element and stays findable until overwritten |
| `CuckooProofs.RunKeeps` | src/cuckoocache.h:264-416 | along every run, live current-epoch entries plus the counter stay within epoch_size + max(1, epoch_size/16), and so do the old-epoch entries |
| `CuckooProofs.DiscardableSlotRemains` | src/cuckoocache.h:315-329 | for every table of at least 32 slots, 32-bit wrap of the epoch size included, a discardable slot remains after every run; DiscardableIff gives the other half |
| `CuckooSmallTables.SmallTableFills` | src/cuckoocache.h:264-329 | in a table of 2, 4, 8 or 16 slots, inserting elements around the table is a run after which no slot is discardable |
| `CuckooSmallTables.DiscardableIff` | src/cuckoocache.h:315-329 | for every depth setup can give, a discardable slot remains for all hashes and runs if and only if the table has at least 32 slots |
| `CuckooCache.FlagsIndependent` | src/cuckoocache.h:92-117 | setting or clearing a packed flag changes that flag and no other |
| `CuckooCache.Cache.CountRecent` | src/cuckoocache.h:271-275 | the scan counts exactly the live entries of the current epoch |
| `CuckooCache.Cache.CheckEpoch` | src/cuckoocache.h:264-296 | the decrement, the scan and the ageing of the packed flags give the state EpochCheckExact describes |
| `CuckooCache.Cache.InsertElement` | src/cuckoocache.h:368-416 | with packed flags and loops, the outcome is the one InsertPresent, InsertFree, InsertEvicts and InsertLosesAtMostOne describe |
| `CuckooCache.Cache.ContainsElement` | src/cuckoocache.h:443-453 | found exactly if one of the eight locations holds the element; erasing marks the first such location and changes nothing else |
| `CheckQueueProofs.StepInv` | src/checkqueue.h:68-126 | every enabled step of master or worker keeps the protocol invariant, and its counters make sense |
| `CheckQueueProofs.TodoCountsPending` | src/checkqueue.h:68-157 | under every interleaving nTodo equals the queued checks plus all unreported batches |
| `CheckQueueProofs.AnswerIsConjunction` | src/checkqueue.h:89-103 | whenever Wait returns, its answer is true if and only if every check added since the last Wait holds |
| `CheckQueueProofs.SkippedOnlyAfterFailure` | src/checkqueue.h:118-124 | in every reachable state, a check in the batch of the master or of a worker is skipped only when some check added since the last Wait has failed |
| `CheckQueueProofs.NoLostWakeup` | src/checkqueue.h:79-103 | while the master sleeps un-notified some worker still holds an unreported batch |
| `CheckQueueProofs.MasterCanReturn` | src/checkqueue.h:79-103 | from every reachable state with the master inside, reports and the waking of a notified master alone let Wait return; no spurious wake-up is needed |
| `CheckQueueProofs.IdleBetweenUses` | src/checkqueue.h:163-189 | between a returned Wait and the next Add the queue is idle, so the control's assertion holds |
| `CheckQueueBatches.BatchIsFairShare` | src/checkqueue.h:104-109 | a batch is the greatest number of checks within the batch size of which every thread and one more could take as many, and at least one |
| `CheckQueueBatches.BatchTaken` | src/checkqueue.h:104-117 | a batch is the end of the queue, last check first; the rest stays in order, and the batch carries the verdict so far |
| `CheckQueueBatches.NothingQueued` | src/checkqueue.h:89-103 | with nothing queued exactly the master with nothing unreported returns, with the verdict, and resets it; everyone else sleeps |
| `CheckQueue.Queue.AddChecks` | src/checkqueue.h:145-157 | the checks are appended in order and counted; one worker is notified for one check, all for more |
| `CheckQueue.Queue.Report` | src/checkqueue.h:79-88 | a result is folded into the verdict and the count; the master is notified exactly by the worker whose report makes the count zero |
| `CheckQueue.Queue.PopBatch` | src/checkqueue.h:107-116 | the batch is the end of the queue, last first |
| `CheckQueue.Queue.Continue` | src/checkqueue.h:89-117 | return only with an empty queue, nothing to do and the master; sleep on an empty queue; otherwise a batch of the stated size leaves the queue |
| `CheckQueue.Queue.Idle` | src/checkqueue.h:163-167 | true exactly if all threads are idle, nothing is left to do and no failure is pending |
| `CheckQueue.RunBatch` | src/checkqueue.h:118-124 | the result is true exactly if it started true and every check of the batch holds |
| `ArithUint.AddAssign` | src/arith_uint256.h:140-150 | addition modulo 2 to the width |
| `ArithUint.Increment` | src/arith_uint256.h:178-185 | plus one modulo 2 to the width |
| `ArithUint.Negate` | src/arith_uint256.h:82-90 | negation modulo 2 to the width |
| `ArithUint.SubAssign` | src/arith_uint256.h:152-156 | subtraction modulo 2 to the width |
| `ArithUint.Decrement` | src/arith_uint256.h:195-202 | minus one modulo 2 to the width |
| `ArithUint.MulSmall` | src/arith_uint256.cpp:63-72 | product with a 32-bit factor modulo 2 to the width, every intermediate within 64 bits |
| `ArithUint.MulAssign` | src/arith_uint256.cpp:75-87 | the product of two different objects modulo 2 to the width; a number multiplied by itself in place becomes zero, which is its square if and only if the low half of its bits is zero |
| `ArithUint.SquareVanishes` | src/arith_uint256.cpp:75-87 | a square vanishes modulo 2^(2m) if and only if the number vanishes modulo 2^m |
| `ArithShift.OrDisjoint` | src/arith_uint256.cpp:35-42 | the bitwise or by which limbs are assembled adds, because the parts do not overlap |
| `ArithShift.ShiftLeft` | src/arith_uint256.cpp:29-43 | multiplication by a power of two modulo 2 to the width, for every shift |
| `ArithShift.ShiftRight` | src/arith_uint256.cpp:46-60 | floor division by a power of two, for every shift |
| `ArithDivide.CompareTo` | src/arith_uint256.cpp:117-126 | the sign of the result is the order of the values |
| `ArithDivide.Bits` | src/arith_uint256.cpp:214-226 | an n with 2^(n-1) <= value < 2^n, or zero for zero; BitsUnique shows it is the only one |
| `ArithDivide.BitsUnique` | src/arith_uint256.cpp:214-226 | there is only one such n |
| `ArithDivide.DivideLoop` | src/arith_uint256.cpp:103-112 | the shift-subtract loop yields quotient and remainder |
| `ArithDivide.DivAssign` | src/arith_uint256.cpp:91-114 | floor quotient for every nonzero divisor, the remainder left over, and failure exactly on zero |
| `ArithCompact.SetCompact` | src/arith_uint256.cpp:273-292 | overflow exactly when mantissa * 256^(size-3) is at least 2^256, otherwise the value is exact; negative exactly when the sign bit is set and the value is nonzero |
| `ArithCompact.GetCompact` | src/arith_uint256.cpp:294-314 | the shifts and ors compute the compact form, and both asserts hold |
| `ArithCompact.OverflowExact` | src/arith_uint256.cpp:287-290 | the three size comparisons are equivalent to the value not fitting 256 bits |
| `ArithCompact.CompactRoundTrip` | src/arith_uint256.cpp:273-314 | decoding an encoding gives the number with its low bytes cleared, off by less than one part in 2^15, and the sign only for nonzero negatives |
| `ArithCompact.CompactMonotone` | src/arith_uint256.cpp:294-314 | larger numbers have no smaller compact form |
| `ArithCompact.CompactCanonical` | src/arith_uint256.cpp:273-314 | encoding what a word stands for gives the word back if and only if the word is canonical |
| `ArithCompact.CompactIdempotent` | src/arith_uint256.cpp:273-314 | encoding again after decoding changes nothing, and every encoding is canonical |
| `ArithCompact.KnownWords` | src/arith_uint256.cpp:273-314 | three words of the unit tests stand for the numbers given there, and one comes back |
| `Bech32Checksum.StepLinear` | src/bech32.cpp:80-92 | a round of the remainder is linear over exclusive or |
| `Bech32Checksum.RunLinear` | src/bech32.cpp:37-94 | the whole remainder computation is linear over exclusive or |
| `Bech32Checksum.ChecksumUnique` | src/bech32.cpp:128-139 | exactly one choice of six symbols brings a remainder to one |
| `Bech32Checksum.BurstDetected` | src/bech32.cpp:64-94 | sequences that differ only within six neighbouring symbols have different remainders |
| `Bech32Field.OrderOfE` | src/bech32.cpp:44-49 | no nonzero field element returns before 1023 multiplications by e |
| `Bech32Distance.EvalStep` | src/bech32.cpp:66-92 | a round on a zero symbol multiplies the value at each root of the generator by that root |
| `Bech32Distance.ThreeErrors` | src/bech32.cpp:44-49 | sequences that differ at up to three places less than 1023 apart have different remainders |
| `Bech32.ThreeErrorsDetected` | src/bech32.cpp:44-49 | up to three wrong data symbols less than 1023 places apart make a verifying sequence fail |
| `Bech32.ErrorDetected` | src/bech32.cpp:118-125 | changes inside any window of six symbols make a verifying sequence fail, at any length |
| `Bech32.SingleErrorDetected` | src/bech32.cpp:118-125 | replacing one symbol makes a verifying sequence fail, at any length |
| `Bech32.PrefixErrorDetected` | src/bech32.cpp:103-125 | one wrong character in a prefix of less than 1022 makes a verifying sequence fail, whatever the values; Decode accepts no longer prefix |
| `Bech32Vectors.EmptyEncoding` | src/bech32.cpp:147-159 | the prefix a without data encodes to a12uel5l, as BIP 173 has it |
| `Bech32Vectors.AscendingEncoding` | src/bech32.cpp:147-159 | the prefix abcdef with all 32 symbols in order encodes to the string of BIP 173 that spells the character set |
| `Bech32.ChecksumVerifies` | src/bech32.cpp:118-139 | a sequence verifies if and only if it ends in the checksum of what precedes it |
| `Bech32.CharOfSymbol` | src/bech32.cpp:13-25 | the reverse table inverts the character set, whose characters are printable, not upper case and not the separator |
| `Bech32.SymbolOfChar` | src/bech32.cpp:13-25 | the character set inverts the reverse table up to case |
| `Bech32.DecodesIff` | src/bech32.cpp:147-192 | the strings that decode to a prefix and data are exactly the one-case spellings of their encoding, for encodable input only |
| `Bech32.RoundTrip` | src/bech32.cpp:147-192 | decoding an encoding gives the input back if and only if the prefix is non-empty, printable and without upper case, all values are below 32 and the total length is at most 1023, or prefix and data are both empty |
| `Bech32.PolyMod` | src/bech32.cpp:37-94 | the loop computes the remainder |
| `Bech32.ExpandHRP` | src/bech32.cpp:103-115 | the buffer holds the high bits, a zero and the low bits, which PrefixErrorDetected and the known strings rest on |
| `Bech32.VerifyChecksum` | src/bech32.cpp:118-125 | true exactly when the remainder is one |
| `Bech32.CreateChecksum` | src/bech32.cpp:128-139 | the loop computes the checksum, the unique one that verifies |
| `Bech32.Encode` | src/bech32.cpp:147-159 | the loop computes the encoding, empty if a value is 32 or more |
| `Bech32.Decode` | src/bech32.cpp:162-192 | the loops compute the decoding, with every rejection of the source |
| `Digits.BufferSuffices` | src/base58.cpp:36-37 | if from^p <= to^q, then n digits fit in s digits of the other base once p*s >= q*n |
| `Digits.EncodeBuffer` | src/base58.cpp:98-99 | 138/100 digits per byte and one more always suffice |
| `Digits.DecodeBuffer` | src/base58.cpp:36-37 | 733/1000 bytes per digit and one more always suffice |
| `Digits.MultiplyAdd` | src/base58.cpp:104-112 | the in-place pass turns the buffer into from * buffer + ch, and the final carry is zero |
| `Base58.ConvertBack` | src/base58.cpp:23-126 | changing the base and back is the identity, leading zeros included |
| `Base58.DecodesIff` | src/base58.cpp:23-126 | a string decodes to v if and only if, up to its first NUL and but for surrounding spaces, it is the encoding of v |
| `Base58.RoundTrip` | src/base58.cpp:23-126 | decoding an encoding gives all bytes back |
| `Base58.RoundTripText` | src/base58.cpp:23-126 | a string without spaces decodes exactly if it is all alphabet, and then encodes back to itself |
| `Base58.CodeOfChar` | src/base58.cpp:21-21 | the digits are the alphanumeric characters in ASCII order without 0, I, O and l |
| `Base58.KnownString` | src/base58.cpp:88-126 | a zero byte and three bytes 0x62 encode to 1a3gV |
| `Base58.EncodeBase58` | src/base58.cpp:88-126 | the loops compute the encoding and the assert on the carry holds |
| `Base58.DecodeBase58` | src/base58.cpp:23-71 | the loops compute the decoding with every rejection, and the assert on the carry holds |
| `Base58.CheckDecodesIff` | src/base58.cpp:138-167 | with any four-byte checksum function the accepted strings are exactly the encodings |
| `Base58.CheckRoundTrip` | src/base58.cpp:138-167 | decoding a checked encoding gives all bytes back |
| `Base58.EncodeBase58Check` | src/base58.cpp:138-145 | the checksum is appended and encoded |
| `Base58.DecodeBase58Check` | src/base58.cpp:147-167 | too short or mismatching input is rejected, otherwise the payload is returned |
| `DenominationModel.ListIsChain` | src/libzerocoin/Denominations.h:27-27 | the real list is ascending and each value divides the next |
| `DenominationModel.PartWorth` | src/denomination_functions.cpp:93-117 | coins whose values divide each other and an amount, and are worth at least it, contain a part worth exactly it |
| `DenominationModel.GreedyReaches` | src/denomination_functions.cpp:40-62 | if any counts within the supply reach an amount, the greedy ones do, with no more coins |
| `DenominationModel.GreedyGreatest` | src/denomination_functions.cpp:40-87 | no counts within the supply add up to more than the greedy ones without exceeding the amount |
| `DenominationSpends.ReachableIffGreedy` | src/denomination_functions.cpp:93-117 | the unused mints have a sub-multiset worth the target if and only if the greedy choice reaches it |
| `DenominationSpends.ExactSelection` | src/denomination_functions.cpp:122-142 | for a reachable target the collected mints are distinct, unused, worth the target, and as few as in any exact selection |
| `DenominationSpends.SelectedDistinct` | src/denomination_functions.cpp:122-142 | counts within the supply select every mint at most once |
| `DenominationSpends.CountUsedUpIff` | src/denomination_functions.cpp:130-139 | the passes for one denomination use its count up if and only if the count is zero or the denomination has an unused mint |
| `DenominationSpends.PassesEndIff` | src/denomination_functions.cpp:129-140 | the loop over all denominations ends if and only if every denomination asked for has an unused mint |
| `DenominationSpends.UsedMintNeverEnds` | src/denomination_functions.cpp:129-140 | asked for one coin of a denomination whose only mint is used, the count stays at one after any number of passes |
| `DenominationSpends.FewestFit` | src/denomination_functions.cpp:403-415 | the selection stays within a limit on the number of mints exactly when any exact selection does |
| `DenominationSpends.ChangeExact` | src/denomination_functions.cpp:67-87 | change for a multiple of the smallest denomination is exact and uses the fewest coins of all |
| `DenominationFunctions.GetSpendCoins` | src/denomination_functions.cpp:40-62 | the loops compute the greedy counts within the holdings |
| `DenominationFunctions.GetChange` | src/denomination_functions.cpp:67-87 | the loops compute the greedy counts without limits |
| `DenominationFunctions.GetIdealSpends` | src/denomination_functions.cpp:93-117 | true if and only if some sub-multiset of the unused mints is worth the target; the counts found are added to those given |
| `DenominationFunctions.GetSpends` | src/denomination_functions.cpp:122-142 | the passes collect the model's selection and its total, and leave every count at zero; PassesEndIff says exactly when they end |
| `DenominationFunctions.SelectExactly` | src/denomination_functions.cpp:403-415 | the exact branch is taken if and only if some choice of at most nMaxNumberOfSpends mints is worth the target, and then with distinct unused mints and the fewest possible; otherwise the number of mints an exact spend needs is reported |
| `BloomModel.InsertedIsFound` | src/bloom.cpp:69-79 | an inserted key is found |
| `BloomModel.InsertKeeps` | src/bloom.cpp:69-110 | inserting loses no key that was found before |
| `BloomModel.InsertExact` | src/bloom.cpp:69-79 | a bit is set afterwards exactly if it was or some hash of the key selects it; a full filter does not change |
| `BloomModel.ClearedExactly` | src/bloom.cpp:126-131 | a cleared filter has no bit set and finds no key |
| `BloomModel.FoundIffCovered` | src/bloom.cpp:95-110 | a filter that holds just these keys finds a key if and only if their bits cover those of the key |
| `BloomModel.ShortcutsExact` | src/bloom.cpp:253-263 | with the flags refreshed, the empty and full shortcuts answer exactly as the bits do |
| `BloomModel.WindowAlways` | src/bloom.cpp:278-290 | after any insertions since a reset, each filter holds what the staggered clears leave it |
| `BloomModel.LastKeysFound` | src/bloom.cpp:278-304 | after any insertions since a reset, each of the last nElements keys is found, across every wrap and both clears |
| `BloomModel.RollingExact` | src/bloom.cpp:278-304 | after any insertions since a reset the answer is that of a fresh filter with just the last keys |
| `BloomModel.RememberedBounds` | src/bloom.cpp:278-304 | the keys that count are all, or at least the last nElements, and always fewer than twice as many |
| `BloomLimit.LastKeysFoundIff` | src/bloom.cpp:265-304 | for every 32-bit number of elements, the last nElements keys are found after all runs and for all hashes if and only if it is below 2^31, where doubling it does not wrap; at exactly 2^31 the source divides by zero before it builds the filter |
| `BloomFilters.BloomFilter.InsertKey` | src/bloom.cpp:69-79 | every bit of the key ends up set and no other changes, unless the filter is full |
| `BloomFilters.BloomFilter.ContainsKey` | src/bloom.cpp:95-110 | true exactly if the filter is full, or not empty with every bit of the key set |
| `BloomFilters.BloomFilter.RefreshFlags` | src/bloom.cpp:253-263 | full and empty are set exactly if all bytes are 0xff, or all zero |
| `BloomFilters.RollingBloomFilter.InsertKey` | src/bloom.cpp:278-290 | at most one filter is cleared, at the start or the middle of a round, before both take the key; the state is the one WindowAlways describes |
| `BloomFilters.RollingBloomFilter.ContainsKey` | src/bloom.cpp:298-304 | the answer comes from the second filter in the first half of a round and from the first in the second half, as LastKeysFound requires |
| `BlockTree.BlockIndex.GetAncestor` | src/main.cpp:4059-4080 | the skip-list walk returns the block of the path at that height, or null outside it |
| `BlockTree.BlockIndex.constructor` | src/main.cpp:4087-4091 | a new block extends the path of its predecessor and its skip pointer leads to the ancestor at the skip height |
| `BlockTree.GetSkipHeight` | src/main.cpp:4048-4057 | the skip height is strictly lower |
| `BlockTree.LowestOneCleared` | src/main.cpp:4045-4045 | n and n - 1 is n without its lowest bit set |
| `BlockTree.SkipFromEven` | src/main.cpp:4048-4057 | from an even height the skip pointer leads to the height without its lowest bit set |
| `BlockTree.SkipFromOdd` | src/main.cpp:4048-4057 | from an odd height it leads to the height without the two lowest bits set above the last |
| `BlockTree.SkipToFirst` | src/main.cpp:4048-4057 | from two to the k plus one it leads to height one |
| `BlockChain.Chain.SetTip` | src/chain.cpp:15-26 | afterwards the chain is exactly the path from genesis to the tip, despite the early loop exit |
| `BlockChain.Chain.Next` | src/chain.h:547-553 | the successor on the chain, or null for the tip and for blocks off the chain |
| `BlockChain.Chain.Tip` | src/chain.h:511-523 | the tip, or the last staked block of the chain, or genesis if there is none |
| `BlockChain.Chain.FindFork` | src/chain.cpp:57-66 | the last shared block: everything up to it agrees, nothing above it does, and null only without a shared genesis |
| `BlockChain.Chain.GetLocator` | src/chain.cpp:28-55 | ancestors at exactly the heights of the doubling steps, strictly decreasing, ending at genesis, at most 12 + floor(log2(height)) of them |

## Left out

- Address manager: Clear on a used manager, reading into a used manager and recovery from a failed read; Clear leaves the entry map, the host index and the pending set as they are (src/addrman.h:465-484).
- Address manager: the random walk of Select_ from slot to slot until it meets an occupied one is given by where it ends; the odds are real numbers, without rounding.
- Address manager: the scope id of IPv6 addresses, which is neither compared nor written; one clock reading serves a whole ResolveCollisions_; the checker's map insertions by operator[] are not kept.
- AddrManCheck.CheckIsInvariant: assumes the id range and the agreement of host index and entries, because the checker never looks at either.
- AddrManager.Manager.Check: which of the negative error codes is returned on failure; they only reach a log line.
- AddrManager.Manager.Save: the byte layout of single records is not part of this model; the stream is a sequence of typed tokens.
- Coins: best-block hashes, memory-usage accounting, priorities, and the database behind the bottom view, which is a plain map.
- Cuckoo cache: setup's floating-point logarithm; the depth limit is given and the size is two to it. Memory ordering of the flags is left to the documented external locking.
- Check queue: thread interruption and the quit flag, which nothing sets; the counters are unbounded.
- Big integers: hexadecimal text, getdouble, and the thin binary operators over copies.
- Bech32Distance.ThreeErrors: the further claim of four errors within 89 symbols, which does not follow from the generator's roots; it comes from an exhaustive search over generators.
- Base58: overflow of `int` buffer sizes on strings of gigabytes, and the address and key wrappers.
- Denominations: minimizeChange and calculateChange, which are heuristics without a stated guarantee.
- DenominationFunctions.GetSpends: counts are not negative; the callers build them by counting up from zero.
- DenominationFunctions.GetSpendCoins: requires a count for every denomination; the source throws on a missing key.
- Bloom filters: the size formulas, Merge, and matching of transactions.
- Chain: comparison of chains, proof-of-stake data, and the serialised block index.
- Networking, scripts, wallet, mining, RPC, configuration and everything resting on secp256k1, AES, scrypt or SHA.
