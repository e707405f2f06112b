# Verified models of the node's hard cores

This project models the most intricate parts of a Bitcoin Core 0.12.1 derivative in Dafny and proves what
they are for. Each part is written in the form the program has: value functions where the program computes,
classes and loops where it changes state, a transition system where it is concurrent. The properties are
for-all statements over inputs, runs and reachable states.

| part | files |
|---|---|
| Address manager: five structures that must stay in step through promotion, eviction and deletion; its own consistency check; saving and loading | `AddrTable`, `AddrRules`, `AddrEffects`, `AddrMan`, `AddrCheck`, `AddrFile`, `AddrSave`, `AddrStore` |
| Layered coin caches that must behave like plain maps | `CoinsData`, `CoinsCache`, `CoinsViews` |
| Parallel check queue: one master, any number of workers, one mutex, two condition variables | `CheckQueue` |
| Partial Merkle trees | `PartialMerkle`, `PartialMerkleTree` |
| 256-bit arithmetic, the compact format, proof of work and retargeting | `Limbs`, `Uint256`, `Uint256Shift`, `Compact`, `Difficulty` |
| Block template selection | `BlockAssembler` |
| Block index skip list and active chain | `ChainIndex` |
| Base 58 | `Base58`, `Base58Text` |
| Stored coin entries: variable-length integers, amounts, scripts, the mask of available outputs | `VarInts`, `Compressor`, `CoinsCodec`, `CoinsSerial` |
| Bloom filters | `Bloom`, `Bits` |
| Network message framing | `NetFraming` |
| Shared vocabulary | `Common`, `Arith` |

`dafny verify dfyconfig.toml` checks everything.

How to read it: the address manager is a value (`AddrTable.State`) with an invariant (`Consistent`) that is
what `Check_` tests, proved so in `AddrCheck.CheckExact`; every step keeps it, and the class `AddrMan` is
proved to do exactly those steps on its maps, vector and bucket arrays. The coin caches are a stack
(`CoinsCache.Stack`) whose every level is viewed as a plain map. The other parts follow the same pattern: an
independent description of what is wanted, a model of what the code does, and lemmas that connect the two.

Random draws, clocks, hashes, the curve arithmetic of public keys, chain parameters and the mempool graph are
inputs of the models and arbitrary within the stated laws. The pair hash of Merkle trees is injective where a
result needs that. Services are sets of service bits.

Where the code does less than one might think, the exact condition is proved, with an instance that fails it:

* `Add_` may answer true without having stored the address (`AddrRules.AddTrueNeedNotStore`,
  `AddrRules.TrueButNotStored`).
* `Good_` with time zero makes `Check_` fail (`AddrRules.GoodTimely`, `AddrRules.GoodAtZero`).
* `ModifyNewCoins` on a transaction that exists below, created and spent, brings the old coins back
  (`CoinsCache.ModifyNewResurrects`, `CoinsCache.OldCoinsComeBack`); the header comment at
  `src/coins.h:429-437` asks callers to avoid it.
* Flushing a cache that never learnt its best block can erase the one below (`CoinsCache.FlushBest`,
  `CoinsCache.FlushForgetsBestBlock`).
* A stored entry with a negative version comes back with another one (`CoinsCodec.CoinsRoundTrip`,
  `CoinsCodec.NegativeVersion`).
* A file in which an address occurs twice can load into an inconsistent manager (`AddrFile.LoadExact`,
  `AddrFile.RepeatedAddressBreaks`).
* An update that tells a fully spent leftover from empty coins sees the cache (`CoinsCache.StepRefines`,
  `CoinsCache.LeftoverShows`).
* A compact code need not survive decoding and encoding (`Compact.ReencodeExact`,
  `Compact.TooSmallToShow`).
* An output whose amount has a code beyond 64 bits does not come back; no amount of money has one
  (`Compressor.TxOutRoundTrip`, `Compressor.LargeAmountLost`).
* `a *= a` on 256-bit numbers gives zero (`Uint256.MulAssign`).
* Recomputing the flags of a filter without hash functions changes its answers (`Bloom.UpdateKeepsAnswers`,
  `Bloom.UpdateChangesAnswer`).
* `Check_` does not notice stray entries of the index by address (`AddrCheck.CheckExact`,
  `AddrCheck.StrayUnnoticed`).
* Two rows of the table of codes at `src/serialize.h:336-337` do not agree with the code, which is followed here
  (`VarInts.DocumentedSlips`).
* The comment at `src/merkleblock.h:47` promises at most 2N-1 bits for N hashes; there is one more for every node
  written out with a single child (`PartialMerkle.BitsExact`, `PartialMerkle.ThreeTransactions`).

## Model

| member | source | states |
|---|---|---|
| `AddrTable.SwapRandomKeeps` | src/addrman.cpp:99-117 | exchanging two places of the random order does just that, keeps the whole invariant and every entry but for its place |
| `AddrTable.DeleteKeeps` | src/addrman.cpp:119-131 | deleting an entry no slot holds removes it from all three indexes, lowers nNew and touches nothing else |
| `AddrTable.ClearNewKeeps` | src/addrman.cpp:133-146 | clearing a slot takes one reference from its occupant, deletes it when that was the last one, keeps the invariant and changes no other entry |
| `AddrTable.CreateKeeps` | src/addrman.cpp:87-97 | a created entry is the only addition, indexed by address and by random place, held by no slot |
| `AddrTable.DetachPurges` | src/addrman.cpp:150-158 | going through all 1024 buckets one position each finds and clears every slot that holds the entry |
| `AddrTable.EvictKeeps` | src/addrman.cpp:167-188 | moving the occupant of a tried slot back to the new table keeps the invariant through the cascade of ClearNew and Delete |
| `AddrTable.EvictEffect` | src/addrman.cpp:167-188 | what eviction does to every entry: one goes back with one reference, one may lose a reference or disappear, all others stay |
| `AddrTable.MakeTriedKeeps` | src/addrman.cpp:148-194 | MakeTried leads from a consistent table to a consistent table |
| `AddrTable.MakeTriedTables` | src/addrman.cpp:148-194 | the exact new contents of both bucket tables after MakeTried |
| `AddrTable.MakeTriedEffect` | src/addrman.cpp:148-194 | the exact new value of every entry after MakeTried, including the evicted and the displaced one |
| `AddrRules.LookupFound` | src/addrman.cpp:74-85 | an entry is found exactly when one with that address and port exists |
| `AddrRules.GoodKeeps` | src/addrman.cpp:196-243 | Good_ keeps the whole invariant |
| `AddrRules.GoodEffect` | src/addrman.cpp:196-243 | what promoting an entry does to the tables and to every other entry |
| `AddrRules.InsertKeeps` | src/addrman.cpp:289-311 | placing a reference keeps the invariant, whether the slot is free, given up or kept |
| `AddrRules.InsertEffect` | src/addrman.cpp:289-311 | what placing a reference does to the tables and to every entry in each of the three cases |
| `AddrRules.AddKeeps` | src/addrman.cpp:245-311 | Add_ keeps the whole invariant |
| `AddrRules.AddTrueNeedNotStore` | src/addrman.cpp:245-311 | Add_ answers true exactly for a routable unknown address, and then has stored it if and only if its slot was free or given up: "true" does not mean "stored" |
| `AddrRules.TrueButNotStored` | src/addrman.cpp:289-311 | an instance: the second address for a slot gets the answer true and is not stored |
| `AddrRules.GetAddrCorrect` | src/addrman.cpp:457-476 | GetAddr_ returns at most 23 percent and 2500 addresses, no two of one entry, each of an entry that was not terrible when its turn came; when there are fewer than both limits allow, an entry is answered if and only if it was not terrible then; the table stays consistent and keeps its entries |
| `AddrRules.ExecKeeps` | src/addrman.cpp:196-330 | every operation keeps the invariant |
| `AddrRules.Run` | src/addrman.cpp:196-330 | every run of operations from the empty table ends in a consistent state |
| `AddrRules.GoodTimely` | src/addrman.cpp:196-215 | Good_ keeps the times plausible if and only if the time given is positive or the address is unknown |
| `AddrRules.GoodAtZero` | src/addrman.cpp:196-215 | an instance: a known address, a success at time 0, and the times are no longer plausible |
| `AddrRules.AttemptTimely` | src/addrman.cpp:313-330 | Attempt_ keeps the times plausible if and only if the time given is not negative or the address is unknown |
| `AddrRules.RunTimely` | src/addrman.cpp:196-330 | over every run with positive success times, what Check_ wants of the times holds |
| `AddrEffects.SlotsWritten` | src/addrman.cpp:11-38 | every slot written out: which bucket and position a reference, an evicted entry and a tried entry go to, by the groups of address and source and the keyed hashes |
| `AddrEffects.SourceGroupBound` | src/addrman.h:109-127 | the addresses announced by one network group reach at most 64 buckets of the new table |
| `AddrEffects.TriedGroupBound` | src/addrman.h:109-127 | in every consistent state one network group holds at most 512 tried slots, in at most eight buckets |
| `AddrEffects.AddKnownEffect` | src/addrman.cpp:245-311 | a known address announced again by any source: how its entry is refreshed, when it gets one more reference, in the slot of that source, what the occupant loses, and that nothing else changes |
| `AddrEffects.AddUnknownEffect` | src/addrman.cpp:245-311 | an unknown address: the exact new entry and its slot, what the occupant loses, or that nothing is left of it |
| `AddrEffects.FactorIs` | src/addrman.cpp:276-281 | each reference makes the next one twice as hard |
| `AddrEffects.GoodNewEffect` | src/addrman.cpp:196-243 | a success with a new entry: the exact new entry and tables, the evicted entry in the slot of its own source, what its occupant there loses, and that nothing else changes |
| `AddrEffects.GoodTriedEffect` | src/addrman.cpp:196-215 | a success with a tried entry sets its times and its attempts and nothing else |
| `AddrEffects.GoodUnknown` | src/addrman.cpp:196-210 | for another port or an unknown address nothing changes |
| `AddrEffects.AttemptEffect` | src/addrman.cpp:313-330 | an attempt is counted and dated for exactly this service, and nothing else changes |
| `AddrEffects.FailingEffect` | src/addrman.cpp:313-330 | after n attempts in a row the entry has n more, dated with the last |
| `AddrEffects.NeverAnswered` | src/addrman.cpp:32-50 | an entry that never answered is given up after exactly three attempts, once the last is a minute old |
| `AddrEffects.AnsweredBefore` | src/addrman.cpp:32-50 | an entry that has answered is given up after exactly ten failures and a week |
| `AddrEffects.TimesDecide` | src/addrman.cpp:32-40 | an entry with a time out of range is given up at once, and one tried in the last minute never |
| `AddrEffects.ConnectedEffect` | src/addrman.cpp:478-496 | the time of a connected entry follows the clock at a distance of at most twenty minutes |
| `AddrEffects.FirstDrawn` | src/addrman.cpp:457-476 | the entry that the first draw names, any of them, is asked first |
| `AddrEffects.LoadedFresh` | src/addrman.h:351-367 | reading one new entry: the exact new state, with the slot of its source when the saved slots are of no use |
| `AddrEffects.LoadedTried` | src/addrman.h:371-389 | reading one tried entry: the exact new state, or none when its slot is taken |
| `AddrEffects.LoadedSlot` | src/addrman.h:392-407 | reading one saved slot: the exact new state |
| `AddrManager.AddrMan.constructor` | src/addrman.h:432-455 | the new manager is the empty table and is consistent |
| `AddrManager.AddrMan.Find` | src/addrman.cpp:74-85 | returns the id of the entry with that address, or none exactly when there is none |
| `AddrManager.AddrMan.SwapRandom` | src/addrman.cpp:99-117 | the new state is the specified exchange |
| `AddrManager.AddrMan.Delete` | src/addrman.cpp:119-131 | the new state is the specified deletion; both assertions hold |
| `AddrManager.AddrMan.ClearNew` | src/addrman.cpp:133-146 | the new state is the specified clearing; the slot is free; the reference-count assertion holds |
| `AddrManager.AddrMan.DetachNew` | src/addrman.cpp:150-158 | the loop over the buckets reaches the specified state |
| `AddrManager.AddrMan.EvictTried` | src/addrman.cpp:167-188 | the eviction branch reaches the specified state; its assertion that the freed slot is empty holds |
| `AddrManager.AddrMan.MakeTried` | src/addrman.cpp:148-194 | the new state is the specified one; all three assertions hold |
| `AddrManager.AddrMan.FindBucket` | src/addrman.cpp:221-237 | whatever random start, the search finds a bucket: the exit "no bucket is found" is unreachable |
| `AddrManager.AddrMan.Good_` | src/addrman.cpp:196-243 | the new state is Good of the old one |
| `AddrManager.AddrMan.Create` | src/addrman.cpp:87-97 | the new state is the specified creation |
| `AddrManager.AddrMan.RefreshKnown` | src/addrman.cpp:254-282 | the branch for a known address: refreshed as specified, and goes on exactly when the entry may get one more reference |
| `AddrManager.AddrMan.InsertEntry` | src/addrman.cpp:289-311 | the tail of Add_ reaches the specified state |
| `AddrManager.AddrMan.Add_` | src/addrman.cpp:245-311 | the new state and the answer are Add of the old state |
| `AddrManager.AddrMan.Attempt_` | src/addrman.cpp:313-330 | the new state is Attempt of the old one |
| `AddrManager.AddrMan.Connected_` | src/addrman.cpp:478-496 | the new state is Connected of the old one |
| `AddrManager.AddrMan.GetAddr_` | src/addrman.cpp:457-476 | the partial shuffle returns the specified addresses and reaches the specified state |
| `AddrManager.Lucky` | src/addrman.cpp:276-281 | the loop that doubles the factor decides as the power of two of the reference count says |
| `AddrManager.AddrMan.SomeBucket` | src/addrman.cpp:221-232 | a new entry of a consistent table is in some bucket at its own position |
| `AddrFile.LoadFreshOneKeeps` | src/addrman.h:351-367 | reading one new entry keeps both tables, the random order and the counters exact, with or without falling back to its home slot, whether or not the address was read before |
| `AddrFile.LoadTriedOneKeeps` | src/addrman.h:371-389 | the same for one tried entry, also when it is lost |
| `AddrFile.LoadSlotOneKeeps` | src/addrman.h:392-407 | the same for any saved placement, sensible or not |
| `AddrFile.PruneLoading` | src/addrman.h:409-419 | pruning deletes exactly the entries no slot took, and their addresses from the index |
| `AddrFile.SlotsRead` | src/addrman.h:330-425 | whatever is in the file, before pruning the tables, the random order and the counters are exact, and every address is indexed under one of the entries that have it |
| `AddrFile.LoadExact` | src/addrman.h:330-425 | whatever is in the file, the loaded tables are in order, and the whole state is consistent if and only if no entry that found a slot shares its address with another entry that was read |
| `AddrFile.RepeatedAddressBreaks` | src/addrman.h:350-367 | an instance: one address saved twice from two sources, loaded into an inconsistent state |
| `AddrSave.OwnCount` | src/addrman.h:295-312 | the two walks over the map visit exactly nNew and nTried entries: the assertions in Serialize hold |
| `AddrSave.SaveDistinct` | src/addrman.h:280-327 | no address is saved twice |
| `AddrSave.TriedBack` | src/addrman.h:371-389 | when a saved file is loaded, every tried entry finds its slot free and gets it back |
| `AddrSave.SlotsBack` | src/addrman.h:392-407 | when a saved file is loaded, every slot of the new table gets its occupant back |
| `AddrSave.RoundTrip` | src/addrman.h:280-425 | saving and loading a consistent table loses nothing: the same entries, reference counts, counters and placement in both tables, up to renaming of ids and random order (and the memory-only last-attempt time) |
| `AddrStore.SaveFresh` | src/addrman.h:293-303 | the first walk writes the new entries in order and ranks them; its assertion holds |
| `AddrStore.SaveTried` | src/addrman.h:304-312 | the second walk writes the tried entries in order; its assertion holds |
| `AddrStore.Serialize` | src/addrman.h:280-327 | the file is Save of the state |
| `AddrStore.ReadTried` | src/addrman.h:373-388 | one turn of the second loop, and whether the entry was lost |
| `AddrStore.ReadSlot` | src/addrman.h:396-405 | one saved placement, with the index check of the code |
| `AddrStore.PruneEntries` | src/addrman.h:409-419 | the pruning loop reaches the specified state |
| `AddrStore.Unserialize` | src/addrman.h:330-425 | for any file, the loaded manager is Load of it; its tables are in order; it is consistent if and only if no entry that found a slot shares its address with another one |
| `AddrStore.SaveAndLoad` | src/addrman.h:280-425 | end to end: what is loaded is the saved table renamed |
| `AddrCheck.Check_` | src/addrman.cpp:380-454 | on any state whatever, the result is 0 exactly when the listed conditions hold and the key is not null |
| `AddrCheck.CheckEntries` | src/addrman.cpp:388-413 | the walk over the entries fails exactly when some entry is out of order, and collects the tried ids and the reference counts |
| `AddrCheck.CheckTriedTable` | src/addrman.cpp:420-432 | the walk over the tried table fails exactly when an occupant is misplaced, and leaves the tried ids that no slot holds |
| `AddrCheck.CheckNewTable` | src/addrman.cpp:434-446 | the walk over the new table, with its erased counts, succeeds with nothing left exactly when every occupant is in place and every count is met |
| `AddrCheck.CheckExact` | src/addrman.cpp:380-454 | a state is consistent with plausible times if and only if Check_ passes and there are no stray index entries, which Check_ does not look for |
| `AddrCheck.StrayUnnoticed` | src/addrman.cpp:380-454 | in every consistent state with plausible times, one more address indexed under any entry is a stray that the check does not notice |
| `AddrCheck.RunPasses` | src/addrman.cpp:196-454 | after every run of operations with positive success times and no negative attempt times, the check passes |
| `CheckQueue.BatchLength` | src/checkqueue.h:104-112 | a batch is never empty and never longer than the queue |
| `CheckQueue.BatchLargest` | src/checkqueue.h:104-109 | a batch is the largest within the batch size and within an equal share for all threads, and at least one |
| `CheckQueue.TakesFromBack` | src/checkqueue.h:110-117 | a batch is the last checks of the queue, the last one first, and starts with the verdict so far |
| `CheckQueue.AddWakes` | src/checkqueue.h:145-158 | one new check wakes the chosen sleeping worker, several wake all sleeping workers, and no other thread notices |
| `CheckQueue.QueueAttended` | src/checkqueue.h:69-158 | in every interleaving in which single notifications reach a sleeping worker, a non-empty queue has a worker that is not fast asleep |
| `CheckQueue.WorkerGoesOn` | src/checkqueue.h:69-127 | that worker can take a productive step, without the master |
| `CheckQueue.StepKeeps` | src/checkqueue.h:69-158 | every step of any thread keeps: nTodo counts the queued checks and all unmerged batches; nTotal and nIdle are exact; the verdict so far is false only when a check has failed; a sleeping master sees an empty queue |
| `CheckQueue.Play` | src/checkqueue.h:69-158 | every interleaving from a good state ends in a good state |
| `CheckQueue.WaitAnswersConjunction` | src/checkqueue.h:69-158 | in every interleaving of the master and any number of workers, Wait has given one answer for each of its returns, and each answer is exactly the conjunction of the checks of the Add events since the return before it; what was added since the last return is queued, in some hands or folded in |
| `CheckQueue.NoLostWakeup` | src/checkqueue.h:80-117 | a master asleep and not notified means: queue empty, nTodo positive, and a worker holds an unmerged batch |
| `CheckQueue.IdleBetweenRounds` | src/checkqueue.h:164-191 | IsIdle holds between rounds, so that the assertion of CCheckQueueControl never fails |
| `CheckQueue.StepDescends` | src/checkqueue.h:69-127 | every productive step lowers a measure |
| `CheckQueue.AlwaysProductive` | src/checkqueue.h:69-127 | while the master is in Wait, some productive step is enabled: no deadlock |
| `CheckQueue.WaitTerminates` | src/checkqueue.h:69-127 | in any schedule of a Wait, with whatever spurious wake-ups in it, the productive steps and what is left of the measure never exceed the measure at the start |
| `CheckQueue.SpuriousFlat` | src/checkqueue.h:80-95 | a thread that wakes up without being notified does not raise the measure |
| `CheckQueue.WaitReturns` | src/checkqueue.h:69-127 | under every schedule that goes on taking productive steps while the master waits, Wait returns within a number of stretches bounded by the measure at the start |
| `CoinsData.Cleanup` | src/coins.h:106-112 | spent outputs at the end are dropped, and nothing more |
| `CoinsData.CleanupLoop` | src/coins.h:106-112 | the loop computes Cleanup |
| `CoinsData.Spend` | src/coins.cpp:35-42 | succeeds exactly for an available output, and then clears it and cleans up |
| `CoinsCache.FetchKeeps` | src/coins.cpp:72-88 | filling caches on a read changes no view at any level and keeps the flags truthful |
| `CoinsCache.UncacheKeeps` | src/coins.cpp:214-221 | uncaching changes no view |
| `CoinsCache.FetchCaches` | src/coins.cpp:72-88 | a read leaves what it found in the cache that was asked, and no trace of what it did not find |
| `CoinsCache.UncacheDrops` | src/coins.cpp:214-221 | forgetting drops just an entry that is neither dirty nor fresh |
| `CoinsCache.ModifyKeeps` | src/coins.cpp:99-118 | modifying changes the top view of that transaction to what the update says and nothing else |
| `CoinsCache.ModifyNewKeeps` | src/coins.cpp:120-127 | the same for ModifyNewCoins when the view below has nothing unspent |
| `CoinsCache.ModifyNewResurrects` | src/coins.h:429-437 | why that is needed: creating and then spending gives the empty view if and only if the view below had nothing unspent; otherwise the old coins come back |
| `CoinsCache.OldCoinsComeBack` | src/coins.h:429-437 | an instance: coins created over unspent ones and spent again show the old ones |
| `CoinsCache.FlushKeeps` | src/coins.cpp:162-212 | flushing changes no coin that can be observed at the level above or below it |
| `CoinsCache.FlushEmpties` | src/coins.cpp:207-212 | the flushed cache ends empty |
| `CoinsCache.RunTidy` | src/coins.cpp:99-206 | over every run, no cache keeps a changed and fully spent entry that is fresh |
| `CoinsCache.TidyHides` | src/coins.cpp:162-203 | so every changed and fully spent entry hides something unspent below |
| `CoinsCache.StepRefines` | src/coins.cpp:72-221 | every operation on a stack of caches does to the views what the same operation does to a stack of plain maps, if and only if it is no update that tells the fully spent leftover of its transaction from empty coins |
| `CoinsCache.ExecAll` | src/coins.cpp:72-221 | over every run of such operations, a stack of caches of any depth equals the stack of plain maps updated directly |
| `CoinsCache.RunsExact` | src/coins.cpp:72-221 | over every run within the contract of the callers, caches and plain maps agree after every operation if and only if each update suits the entry it finds |
| `CoinsCache.RegularRuns` | src/coins.cpp:72-221 | the updates that treat all fully spent coins alike, as equality of coins does, are such operations in every state |
| `CoinsCache.LeftoverShows` | src/coins.cpp:99-118 | an instance, two operations from a fresh cache: spending everything leaves an entry that still carries its height, and an update that keeps the height then parts from the plain maps |
| `CoinsCache.AskingChangesNothing` | src/coins.cpp:152-156 | asking for the best block, which fills caches, changes no answer |
| `CoinsCache.AskedKnows` | src/coins.cpp:152-156 | the cache that was asked keeps the answer |
| `CoinsCache.FlushBest` | src/coins.cpp:204-212 | flushing keeps the best block of the flushed cache if and only if it was set, or the cache below has none of its own or the right one |
| `CoinsCache.FlushForgetsBestBlock` | src/coins.cpp:204-212 | an instance in which flushing forgets the best block |
| `CoinsViews.CoinsViews.GetCoins` | src/coins.cpp:90-97 | answers Get and fills the caches as Fetch says |
| `CoinsViews.CoinsViews.HaveCoins` | src/coins.cpp:138-145 | true exactly when the coins are there and not fully spent |
| `CoinsViews.CoinsViews.ModifyCoins` | src/coins.cpp:99-118 | opening an entry, updating it through the modifier and closing it changes the stack as Modify does, which ModifyKeeps describes |
| `CoinsViews.CoinsViews.ModifyNewCoins` | src/coins.cpp:120-127 | starts from empty coins, marks them fresh and dirty, and changes the stack as ModifyNew does |
| `CoinsViews.CoinsViews.Uncache` | src/coins.cpp:214-221 | drops an entry exactly when it is neither dirty nor fresh |
| `CoinsViews.CoinsViews.BatchWrite` | src/coins.cpp:162-206 | the loop over the child entries merges each as specified and leaves the child empty |
| `CoinsViews.CoinsViews.BatchWriteDb` | src/txdb.cpp:56-77 | only dirty entries reach the database; fully spent ones are erased |
| `CoinsViews.CoinsViews.Flush` | src/coins.cpp:207-212 | the cache ends empty and the level below is merged, which no view notices |
| `CoinsViews.CoinsViews.GetBestBlock` | src/coins.cpp:152-156 | answers Best and caches it |
| `CoinsViews.CoinsViews.Push` | src/coins.cpp:61-61 | a new cache on top is empty and knows no best block |
| `CoinsViews.CoinsViews.SetBestBlock` | src/coins.cpp:158-160 | sets the mark of the top cache |
| `CoinsViews.CoinsViews.ModifierEnds` | src/coins.cpp:284-296 | the end of a modification: clean up, and drop an entry that is fresh and fully spent |
| `PartialMerkle.WidthExact` | src/merkleblock.h:65-68 | CalcTreeWidth counts exactly the positions that stand over a transaction |
| `PartialMerkle.RootIsMerkleRoot` | src/merkleblock.cpp:63-78 | the recursive hash of the root node is the Merkle root of the list, taken level by level, neighbours hashed together and a last odd one with itself |
| `PartialMerkle.HashesDiffer` | src/merkleblock.cpp:63-78 | with distinct transactions and an injective pair hash, different nodes of one level have different hashes |
| `PartialMerkle.EncodeSize` | src/merkleblock.cpp:80-96 | the encoder writes at most one hash per transaction and at least one bit per hash |
| `PartialMerkle.BitsExact` | src/merkleblock.h:38-48 | exactly 2N-1 bits for N hashes, and one more for every node written out with a single child |
| `PartialMerkle.LastOfThree` | src/merkleblock.cpp:80-97 | an instance: the bits and hashes for the last of three transactions |
| `PartialMerkle.ThreeTransactions` | src/merkleblock.h:47-47 | an instance: six bits for three hashes, which the comment in the source rules out |
| `PartialMerkle.ExtractEncode` | src/merkleblock.cpp:80-132 | reading back what was written for any node gives its hash and its selected transactions, uses exactly what was written and never raises the alarm |
| `PartialMerkle.RoundTrip` | src/merkleblock.cpp:134-181 | build, pad to bytes, extract: the Merkle root of the list and exactly the selected transaction ids in order |
| `PartialMerkle.ExtractSound` | src/merkleblock.cpp:98-132 | whatever the streams and whatever number of transactions is claimed, a node whose hash comes out right without alarm yields only transactions under it, in order |
| `PartialMerkle.Sound` | src/merkleblock.cpp:150-181 | any message that extraction accepts with the Merkle root of a block yields a subsequence of the block, even with a false number of transactions of the same height |
| `PartialMerkle.AcceptedWhole` | src/merkleblock.cpp:150-181 | what is accepted has a sensible number of transactions, no more hashes than transactions or bits, no alarm, and leaves nothing over but the padding of the last byte |
| `PartialMerkle.TreeHeight` | src/merkleblock.cpp:141-144 | the least height with a single node |
| `PartialMerkle.Pack` | src/merkleblock.h:99-103 | bit p goes to bit p mod 8 of byte p div 8, the rest is zero |
| `PartialMerkle.Unpack` | src/merkleblock.h:92-98 | the inverse |
| `PartialMerkleTree.Tree.Build` | src/merkleblock.cpp:134-146 | the streams are the encoding |
| `PartialMerkleTree.Tree.TraverseAndBuild` | src/merkleblock.cpp:80-96 | appends exactly the encoding of the node |
| `PartialMerkleTree.Tree.AnyMatch` | src/merkleblock.cpp:82-85 | whether any transaction below is selected |
| `PartialMerkleTree.Tree.TraverseAndExtract` | src/merkleblock.cpp:98-132 | the recursive reader computes the specified walk |
| `PartialMerkleTree.Tree.ExtractMatches` | src/merkleblock.cpp:150-181 | with all its checks, computes the specified answer |
| `PartialMerkleTree.Tree.WriteBits` | src/merkleblock.h:88-103 | packs the bits |
| `PartialMerkleTree.Tree.Read` | src/merkleblock.h:88-98 | unpacks them |
| `PartialMerkleTree.Relay` | src/merkleblock.cpp:80-181 | end to end through both objects and the byte form: the receiver gets the Merkle root of the list and exactly the selected ids |
| `Uint256.AddAssign` | src/arith_uint256.h:135-145 | sum modulo 2^256 |
| `Uint256.Not` | src/arith_uint256.h:69-75 | 2^256 - 1 minus the value |
| `Uint256.Increment` | src/arith_uint256.h:173-180 | plus one modulo 2^256 |
| `Uint256.Negate` | src/arith_uint256.h:77-84 | minus the value modulo 2^256 |
| `Uint256.SubAssign` | src/arith_uint256.h:147-151 | difference modulo 2^256 |
| `Uint256.ProductFits` | src/arith_uint256.cpp:55-81 | carry plus limb times limb plus limb always fits 64 bits |
| `Uint256.MulAssign32` | src/arith_uint256.cpp:55-65 | product modulo 2^256 |
| `Uint256.MulAssign` | src/arith_uint256.cpp:67-81 | product modulo 2^256 for two different objects, and zero when an object is multiplied by itself |
| `Uint256Shift.ShlAssign` | src/arith_uint256.cpp:21-36 | times 2^shift modulo 2^256 for every shift |
| `Uint256Shift.ShrAssign` | src/arith_uint256.cpp:38-53 | floor division by 2^shift for every shift |
| `Uint256Shift.CompareTo` | src/arith_uint256.cpp:109-119 | the sign of the difference |
| `Uint256Shift.Bits` | src/arith_uint256.cpp:171-183 | the least number of bits that hold the value |
| `Uint256Shift.DivAssign` | src/arith_uint256.cpp:83-107 | floor of the quotient for every non-zero divisor; zero divisor is the error |
| `Compact.SetCompact` | src/arith_uint256.cpp:204-222 | mantissa times 256^(size-3) modulo 2^256, with exact sign and overflow flags |
| `Compact.OverflowExact` | src/arith_uint256.cpp:217-219 | the overflow test holds exactly when mantissa times 256^(size-3) reaches 2^256 |
| `Compact.TestedSmall` | src/test/arith_uint256_tests.cpp:412-513 | the small codes of the tests, with their signs |
| `Compact.TestedLarge` | src/test/arith_uint256_tests.cpp:507-537 | the large codes of the tests, with signs and overflow |
| `Compact.GetCompact` | src/arith_uint256.cpp:224-245 | the normalised mantissa and size of the value |
| `Compact.Rounding` | src/arith_uint256.cpp:224-245 | decoding the code rounds down by less than one unit of the kept mantissa, and is exact for small values |
| `Compact.Stable` | src/arith_uint256.cpp:204-245 | encoding a decoded code gives the code back, for every code of a number |
| `Compact.CanonicalExact` | src/arith_uint256.cpp:204-245 | a code is the compact form of what it stands for if and only if its mantissa is normalised and nothing of it is shifted out |
| `Compact.ReencodeExact` | src/arith_uint256.cpp:204-245 | for every code and sign: decoding to 256 bits and encoding again gives it back if and only if it is canonical, does not overflow and has that sign |
| `Compact.TooSmallToShow` | src/arith_uint256.cpp:204-245 | an instance: 0x01003456 decodes to zero and is encoded as 0 |
| `Compact.Monotone` | src/arith_uint256.cpp:224-245 | larger values have codes that are not smaller, and decode to values that are not smaller |
| `Difficulty.GetBlockProof` | src/pow.cpp:110-123 | floor(2^256 / (target + 1)) for valid bits, otherwise zero |
| `Difficulty.CheckProofOfWork` | src/pow.cpp:91-108 | accepts exactly when the target is valid, at most the limit, and not below the hash |
| `Difficulty.CalculateNextWorkRequired` | src/pow.cpp:57-89 | the code of the clamped and rescaled target |
| `Difficulty.NextWithin` | src/pow.cpp:57-89 | the retarget product never wraps; the new target is at most the limit and four times the old one and at least a quarter of it |
| `Difficulty.NextTargetExact` | src/pow.cpp:57-89 | the next target is the old one in the proportion of time taken to time wanted, between a quarter and four times it and up to the limit, in every case |
| `Difficulty.SteadyTarget` | src/pow.cpp:57-89 | a period that takes its time leaves the target as it is |
| `Difficulty.NextTargetMonotone` | src/pow.cpp:57-89 | slower blocks never make the target smaller |
| `Difficulty.RetargetBounds` | src/pow.cpp:57-89 | the same for the decoded result, down to the compact rounding of a quarter |
| `Difficulty.GetNextWorkRequired` | src/pow.cpp:14-55 | which of the four answers is given, including the walk back over minimum-difficulty blocks |
| `Difficulty.MainIntervals` | src/chainparams.cpp:123-132 | on the main network a period has 720, then 60, then 30 blocks, and its length is the spacing times that |
| `BlockAssembler.MakeLimits` | src/miner.cpp:94-107 | the limits are in order whatever the arguments |
| `BlockAssembler.Extend` | src/miner.cpp:162-283 | adding a transaction whose parents are in keeps: no duplicates, parents first |
| `BlockAssembler.ExtendTotals` | src/miner.cpp:235-243 | the running totals stay exact |
| `BlockAssembler.GreedyMore` | src/miner.cpp:164-254 | adding the foremost of all that could be added keeps a selection greedy, by priority first and by score after that |
| `BlockAssembler.Assembler.Next` | src/miner.cpp:164-179 | takes the highest priority from the priority queue while the priority area is open, otherwise the best score among the re-queued, or the next in the mempool order; says which, that it is the foremost of all that could be added, and always shortens what is pending |
| `BlockAssembler.Assembler.Orphan` | src/miner.cpp:186-193 | whether a parent in the mempool is not yet in the block |
| `BlockAssembler.Assembler.Postpone` | src/miner.cpp:194-200 | an orphan waits in the set its queue has, with its priority, and nothing else changes |
| `BlockAssembler.Assembler.ClosePriority` | src/miner.cpp:202-207 | the priority area ends exactly when it is full or the priority is too low; then those waiting for it are forgotten, and only then |
| `BlockAssembler.Assembler.Consider` | src/miner.cpp:202-233 | a candidate whose parents are in is added exactly when it does not end the selection, is final and fits; it ends the selection exactly at the four tests of the code; the misses near the end are counted |
| `BlockAssembler.Assembler.Take` | src/miner.cpp:235-254 | one transaction enters block, totals and inBlock |
| `BlockAssembler.Assembler.Requeue` | src/miner.cpp:256-273 | the waiting children come back: to the priority queue with their priorities while the area is open, to the re-queued ones otherwise; the others go on waiting |
| `BlockAssembler.Assembler.CreateNewBlock` | src/miner.cpp:95-283 | terminates; no duplicates; every mempool parent before its child; size and sigops within limits, equal to the reserve plus the selected ones; coinbase is subsidy plus selected fees; greedy: each transaction had the highest priority of all that could be added then, and after the priority area the best score; when the queues run out, for every size of the priority area, every transaction left out lacks a parent in the block, is not final or does not fit; and the selection ends before that only at a transaction with all its parents in the block that pays too little once the minimal size is reached, or does not fit a block within 100 bytes, 1000 bytes after more than 50 misses, or one signature operation of its limit |
| `ChainIndex.InvertsLowestOne` | src/chain.cpp:64-65 | n & (n - 1) is n without its lowest one bit, and smaller |
| `ChainIndex.LowestOneIs` | src/chain.cpp:64-65 | the lowest one is the power of two that divides the number an odd number of times |
| `ChainIndex.GetSkipHeight` | src/chain.cpp:67-76 | strictly below the height |
| `ChainIndex.SkipHeights` | src/chain.cpp:64-76 | which height the skip goes to: even heights lose their lowest one bit, odd ones the lowest two of the height below |
| `ChainIndex.GetAncestor` | src/chain.cpp:78-101 | equals the plain walk over parents for every block and height |
| `ChainIndex.BuildSkip` | src/chain.cpp:108-112 | the skip link is the ancestor at the skip height, and the tree can take the block |
| `ChainIndex.Chain.SetTip` | src/chain.cpp:13-23 | despite the early exit, vChain[i] is the ancestor of the tip at height i for every i |
| `ChainIndex.Chain.FindFork` | src/chain.cpp:53-59 | the highest block that is in the chain and an ancestor |
| `ChainIndex.Chain.GetLocator` | src/chain.cpp:25-51 | the entries are the ancestors at the heights of the formula, strictly descending, down to genesis and no further |
| `ChainIndex.Chain.Next` | src/chain.h:381-387 | the child in the chain, or none exactly for the tip and foreign blocks |
| `ChainIndex.LocatorClosed` | src/chain.cpp:25-51 | closed form of the locator heights |
| `ChainIndex.LocatorLength` | src/chain.cpp:25-51 | exactly 11 + ceil(log2(H - 9)) entries for start height H of at least 10 |
| `ChainIndex.LocatorDescends` | src/chain.cpp:25-51 | strictly descending |
| `Base58.EncodeRoom` | src/base58.cpp:76-77 | 256^n fits n * 138 / 100 + 1 digits of base 58 |
| `Base58.DecodeRoom` | src/base58.cpp:33-34 | 58^n fits n * 733 / 1000 + 1 bytes |
| `Base58.MulAdd` | src/base58.cpp:42-47 | the carry loop computes buffer * mul + add, with what does not fit in the carry |
| `Base58.Absorb` | src/base58.cpp:36-50 | one more digit; the carry assertion holds |
| `Base58Text.AlphabetIs` | src/base58.cpp:19-20 | the alphabet is all alphanumeric characters but 0, O, I and l, in the order of their codes |
| `Base58Text.TestedTexts` | src/test/data/base58_encode_decode.json:3-4 | two texts of the tests |
| `Base58Text.DecodeEncode` | src/base58.cpp:22-101 | decoding the text of any byte string gives it back |
| `Base58Text.DecodeExact` | src/base58.cpp:22-101 | a text decodes to given bytes if and only if, without the spaces around it, it is their encoding |
| `Base58Text.DecodeCheckExact` | src/base58.cpp:113-142 | with the checksum: if and only if it is their checked encoding between spaces |
| `Base58Text.EncodeBase58` | src/base58.cpp:68-101 | the buffer loops produce exactly the text Encode describes; no carry is left over |
| `Base58Text.FromBase58` | src/base58.cpp:33-50 | the digit loop: where it stops, what it has computed, when it fails |
| `Base58Text.DecodeBase58` | src/base58.cpp:22-66 | for every C string, fails exactly on a foreign character or an inner space, and otherwise returns the bytes Decode describes |
| `Base58Text.DecodeBase58String` | src/base58.cpp:108-111 | a string is read up to its first NUL |
| `Base58Text.EncodeBase58Check` | src/base58.cpp:113-120 | appends the four checksum bytes before encoding |
| `Base58Text.DecodeBase58Check` | src/base58.cpp:122-142 | answers exactly when the last four bytes are the checksum of the others |
| `VarInts.ReadVarInt` | src/serialize.h:353-384 | reading takes back exactly what was written |
| `VarInts.VarIntUnique` | src/serialize.h:317-339 | every number has exactly one encoding |
| `VarInts.VarIntSum` | src/serialize.h:317-325 | the bytes of a number add up to it by the documented sum, and all but the last have the top bit set |
| `VarInts.DocumentedCodes` | src/serialize.h:333-338 | the documented codes, but for two rows of the table |
| `VarInts.DocumentedSlips` | src/serialize.h:336-337 | those two rows give other codes than the program writes, and what they stand for |
| `VarInts.Widths` | src/serialize.h:355-357 | 5 and 10 digits suffice for 32 and 64 bits |
| `VarInts.FillDigits` | src/serialize.h:355-366 | the digits in the buffer, last first, are the code; the buffer is never exceeded |
| `VarInts.WriteVarInt` | src/serialize.h:353-370 | appends the code; of a negative number only the low seven bits |
| `VarInts.ReadVarIntLoop` | src/serialize.h:371-384 | the number modulo the type, and the rest of the stream; fails exactly when the stream ends inside |
| `VarInts.GetSizeOfVarInt` | src/serialize.h:341-352 | the length of the code |
| `Compressor.AmountRoundTrip` | src/compressor.cpp:142-185 | decompressing a compressed amount gives it back |
| `Compressor.AmountOnto` | src/compressor.cpp:142-185 | and the other way round: amounts and codes are in one-to-one correspondence |
| `Compressor.CompressBound` | src/compressor.cpp:142-159 | a code is at most nine times its amount, so no amount of money overflows 64 bits |
| `Compressor.TestedAmounts` | src/test/compress_tests.cpp:42-47 | the amounts of the tests and their codes |
| `Compressor.CompressAmountLoop` | src/compressor.cpp:142-159 | the loop computes the code of the amount, cut to 64 bits; the digit assertion holds |
| `Compressor.DecompressAmountLoop` | src/compressor.cpp:161-185 | the loops compute the amount of the code, cut to 64 bits |
| `Compressor.DecompressCompress` | src/compressor.cpp:48-132 | each special script form is its number and a body of the announced size, and is rebuilt exactly |
| `Compressor.FormsWritten` | src/compressor.cpp:48-88 | the four special script forms and what each is stored as |
| `Compressor.OtherForms` | src/compressor.cpp:12-46 | no other script is a special form |
| `Compressor.ScriptRoundTrip` | src/compressor.h:58-91 | every script comes back, and nothing beyond it is read |
| `Compressor.AmountExact` | src/compressor.cpp:142-185 | cut to 64 bits, an amount comes back if and only if its code fits: a code that has wrapped never stands for the same amount again |
| `Compressor.MoneyStorable` | src/compressor.cpp:142-159 | the code of every amount of money fits |
| `Compressor.TxOutRoundTrip` | src/compressor.h:94-120 | every output with a signed 64-bit amount and a script of storable length comes back, and nothing beyond it is read, if and only if the code of its amount fits 64 bits |
| `Compressor.LargeAmountLost` | src/compressor.h:94-120 | an instance: an amount of 2^62 - 1 does not come back |
| `Compressor.WriteTxOut` | src/compressor.h:108-120 | appends the code of the output |
| `Compressor.ReadTxOutFrom` | src/compressor.h:108-120 | reads it, or fails where the stream ends |
| `Compressor.ScriptSize` | src/compressor.h:58-64 | the length of the code |
| `CoinsCodec.MaskSizeExact` | src/coins.cpp:17-33 | the number of mask bytes ends at the last used one, and the used ones are counted exactly |
| `CoinsCodec.SomethingLeft` | src/coins.h:180-185 | the assertion before writing holds for every entry that is not fully spent |
| `CoinsCodec.ReadMaskExact` | src/coins.h:218-229 | counting non-zero bytes finds the end of the mask |
| `CoinsCodec.HeaderDecode` | src/coins.h:180-218 | the header code gives back all its parts, with the N-1 rule |
| `CoinsCodec.CoinsBack` | src/coins.h:178-239 | what is read back from any entry that is not fully spent: the cleaned entry, with a negative version or height cut to seven bits, and exactly the bytes written are consumed |
| `CoinsCodec.CoinsRoundTrip` | src/coins.h:178-239 | a clean entry comes back unchanged if and only if its version and height are not negative |
| `CoinsCodec.StoredCoins` | src/coins.h:178-239 | the same with the real output compression, for all amounts whose code fits, as that of all money does, and all scripts |
| `CoinsCodec.NegativeVersion` | src/coins.h:186-187 | a transaction of version -1 is read back with version 127 |
| `CoinsCodec.FirstExample` | src/coins.h:39-51 | the first documented entry, byte by byte |
| `CoinsCodec.SecondExample` | src/coins.h:54-71 | the second documented entry, byte by byte |
| `CoinsSerial.CalcMaskSize` | src/coins.cpp:17-33 | computes size and count of the mask |
| `CoinsSerial.Serialize` | src/coins.h:178-205 | appends exactly the code of the entry; its assertion holds |
| `CoinsSerial.Unserialize` | src/coins.h:207-239 | reads the entry the stream starts with and leaves the rest; fails exactly where the stream ends inside it |
| `CoinsSerial.GetSerializeSize` | src/coins.h:155-176 | the number of bytes Serialize writes |
| `Bloom.MarkedBits` | src/bloom.cpp:61-72 | an insertion sets exactly the chosen bits and clears none |
| `Bits.MaskIs` | src/bloom.cpp:67-69 | bit k of a byte is 1 << k |
| `Bloom.InsertExact` | src/bloom.cpp:61-102 | what a filter answers after an insertion, for every key |
| `Bloom.InsertContains` | src/bloom.cpp:61-102 | an inserted key is contained |
| `Bloom.InsertRetains` | src/bloom.cpp:61-102 | and stays so: no false negatives |
| `Bloom.UpdateKeepsAnswers` | src/bloom.cpp:206-217 | recomputing the flags changes no answer if and only if there is a hash function, a set bit, or the filter was marked empty |
| `Bloom.UpdateChangesAnswer` | src/bloom.cpp:206-217 | an instance: one zero byte, no hash function |
| `Bloom.InsertRecalls` | src/bloom.cpp:232-244 | each of the two staggered filters keeps its window through every insertion |
| `Bloom.RecentContained` | src/bloom.cpp:252-258 | every key within the reach, which is never less than N, is contained |
| `Bloom.LastKeysContained` | src/bloom.cpp:219-272 | after any run of insertions each of the last N keys is contained |
| `Bloom.RollingExact` | src/bloom.cpp:219-258 | after any run of insertions a key is contained if and only if each of its bits, written out, is a bit of one of the last w keys, where w is known exactly: older keys are forgotten |
| `Bloom.BloomFilter.Insert_` | src/bloom.cpp:61-72 | the loop over the hash functions leaves the filter whose answers InsertExact describes |
| `Bloom.BloomFilter.Contains_` | src/bloom.cpp:88-102 | true exactly when the filter is full, or not empty and every chosen bit is set |
| `Bloom.BloomFilter.Clear_` | src/bloom.cpp:118-123 | no bit set, marked empty, same size |
| `Bloom.BloomFilter.UpdateEmptyFull` | src/bloom.cpp:206-217 | full exactly when every byte is 255, empty exactly when every byte is 0 |
| `Bloom.RollingBloomFilter.constructor` | src/bloom.cpp:219-230 | the filter as after a reset |
| `Bloom.RollingBloomFilter.RollingInsert_` | src/bloom.cpp:232-244 | clears each filter at its point of the round, inserts into both, counts modulo the round |
| `Bloom.RollingBloomFilter.RollingContains_` | src/bloom.cpp:252-258 | asks the filter that has the longer memory at this point of the round |
| `Bloom.RollingBloomFilter.RollingReset_` | src/bloom.cpp:266-272 | both filters empty under the new tweak, a new round |
| `NetFraming.ChunkIndependent` | src/net.cpp:659-695 | however a stream is cut into pieces, verdict and messages are those of the whole stream |
| `NetFraming.FeedSplit` | src/net.cpp:659-695 | the same for two pieces and any state |
| `NetFraming.FeedExact` | src/net.cpp:659-695 | a stream goes on with given messages if and only if they are a framing of it, and is cut after given messages if and only if they and an oversized header come first; so a framing is unique |
| `NetFraming.FrameReceived` | src/net.cpp:659-732 | a message written as the protocol says, of at most two megabytes, is received as one; the header of a larger one ends the connection |
| `NetFraming.TakenOff` | src/net.cpp:659-695 | taking finished messages off the front between two pieces disturbs nothing |
| `NetFraming.NetMessage.WhenComplete` | src/net.h:235-240 | a complete message holds exactly the announced number of bytes |
| `NetFraming.NetMessage.ReadHeader` | src/net.cpp:697-730 | takes header bytes; fails exactly when the finished header announces too much |
| `NetFraming.NetMessage.ReadData` | src/net.cpp:732-746 | takes data bytes up to the announced size; room ahead never exceeds it |
| `NetFraming.Node.Absorb` | src/net.cpp:661-692 | every turn uses at least one byte |
| `NetFraming.Node.ReceiveMsgBytes` | src/net.cpp:659-695 | terminates; the received messages are those of the byte-at-a-time automaton, for every piece and every earlier state |

## Left out

- AddrCheck.Check_: reading the index of a missing address inserts it in the program; here it is only read.
- AddrStore.Unserialize: the bytes of the file, whose records are values here; the case of negative counters in a damaged file.
- AddrManager: `Select_` and `GetChance` (unbounded random loops over floating-point chances), `Del`, and `Clear` on a used manager, which leaves two of the maps filled; a manager is always loaded into a new one.
- AddrManager: 32-bit wrap-around of ids and attempt counters.
- AddrRules.GetAddrCorrect: nothing is said about the distribution of the answer.
- CheckQueue: `fQuit`, which is never set, and interruption of threads; one critical section is one step.
- CoinsViews: memory accounting, `AccessCoins`, statistics and the database engine.
- CoinsCodec.StoredCoins: entries with about 2^32 outputs, where the unsigned counters wrap; key decompression is assumed to invert key compression; what a damaged stream decodes to beyond the error at its end.
- PartialMerkle: SHA-256 itself and the block header beside the tree.
- Uint256: hexadecimal text, `getdouble`, bitwise `^`, `&`, `|` on whole numbers.
- Difficulty.GetNextWorkRequired: the consensus parameters are any record with positive spacings not above their timespans, rather than those of one network; 64-bit times do not wrap.
- BlockAssembler.Assembler.CreateNewBlock: priorities are integers instead of floating-point numbers; the final validity test, the header and the logging are not modelled.
- ChainIndex: locators list blocks rather than their hashes; median time and chain work.
- Base58Text: the address classes built on top, and wiping of memory; a space is one of the six characters of the C locale.
- Bloom.LastKeysContained: filters without data, whose sizing formulas gave zero bytes; the sizing formulas themselves; `IsRelevantAndUpdate`.
- NetFraming: sockets, the checks of a finished message, and message handling.
- Block validation, script evaluation, wallet, RPC and startup code.
