# Models of a Bitcoin node's core algorithms

A Dafny model of the parts of this node (a fork of Bitcoin Core) where correctness rests on an invariant
over many steps, with proofs of what those parts are for. `dafny verify dfyconfig.toml` checks everything.

Each module follows one component of the sources.

- **Coins** – the stack of coin caches over the coin database. Every operation on a stack of any height is
  shown to act on the top view as on one plain map from outpoints to coins; flushing, syncing, fetching and
  uncaching are invisible, and the FRESH and DIRTY flags and the memory total stay exact. A write to
  the database that is interrupted any number of times and repeated with the same entries ends in the same view
  as one that is not; the replay of blocks after a crash is not modelled.
- **HeadersSync** – the two-phase headers download with commitments. Each message's result and next state
  are given outright; every header handed on is shown to be proven by work or by matching commitments, and
  an honest peer to be served to the end.
- **CheckQueue** – the queue of script checks with its master and workers, as a state machine over the
  critical sections. For every interleaving the verdict is right, no wake-up is lost, every Wait returns
  within a bounded number of steps however the threads that are due are scheduled, and a stop ends all workers.
- **AddrIndex**, **AddrMan**, **AddrManCheck**, **AddrManDisk** – the address manager: its tables and their
  invariant, every operation and every run, the built-in consistency check, and the file it is saved to.
  Saving and loading loses nothing, and whatever file loads gives consistent tables, with the entries of the
  file that the placing rules keep. No network group gets more than its share of the tables.
- **ArithUint256**, **CompactTarget** – arithmetic on arrays of 32-bit limbs against natural numbers, the
  compact target encoding, and the work of a block.
- **SkipHeights**, **Chain** – skip lists with the number of links they take, the active chain, forks and
  locators over linked block entries.
- **Base58**, **Bech32** – the two address encodings: round trips and uniqueness.
- **Gf1024**, **Bech32Errors** – the field behind the checksum of BIP 173 and BIP 350, the proof that the
  checksum detects any three errors, and the shortest strings of the two standards.
- **VarInt**, **Compressor** – variable-length numbers and the compressed form of outputs.
- **CuckooCache** – the signature cache: where an insert's displacements lead, and what is never lost.
- **CompactBlocks** – rebuilding a block announced as in BIP 152.

**Sequences**, **Powers**, **Limbs** and **Digits** hold facts about lists, powers, limbs and digit strings
that several of these use.

Objects that the sources update in place are classes here, loops are loops, and the queue of checks is a
state machine because its threads interleave. Each method is proved against a function or predicate of the
old state; the lemmas then say what that function means. Integers are unbounded, and every place where the
sources' width matters (limbs, 64-bit sums and amounts, 16-bit indexes, the 32-bit epoch size and flag bytes)
has its wrap-around or its absence stated.

Hashes, signatures and network groups are parameters: functions about which nothing is assumed beyond the
range of their results. Random draws and clock readings are either parameters or arbitrary choices inside a
method, so what is proved holds for all of them. An exception or error return is a result here.

Where a promise does not hold, the model keeps the code's behaviour, gives the exact condition and shows a
failing case:

- the headers handed on after the second download are those received if and only if no header uses the
  fields this fork adds to a header, because the compressed form in the buffer drops them
  (`HeadersSync.Session.RebuildIsIdentity`; the case is `HeadersSync.Session.UsefulWorkHeaderIsChanged`);
- adding a coin over an unspent one throws after the old coin's memory has been taken off the running total,
  so the total stays exact if and only if that coin used none (`Coins.CoinsViewCache.AddCoin`; the case is
  `Coins.AddTwice`);
- compact targets survive reading and writing if and only if they are canonical and fit 256 bits
  (`CompactTarget.WriteBack`; the cases are `CompactTarget.OverflowNotWrittenBack` and
  `CompactTarget.LongFormNotWrittenBack`);
- a Bech32 string decodes to what was encoded if and only if its prefix and length are within the limits
  that only the decoder checks (`Bech32.RoundTrip`; the case is `Bech32.OverlongNotDecoded`);
- the flags of the signature cache cover all slots if and only if there are at most 2^32 - 8, because the
  number of bytes is computed in 32 bits (`CuckooCache.FlagBytesSuffice`, `CuckooCache.Cache.constructor`; the
  case is `CuckooCache.NoByteForFlags`);
- the epochs of the signature cache are 45 per cent of its slots if and only if there are at most 95443717,
  because the product is computed in 32 bits (`CuckooCache.EpochIsFull`; the case is
  `CuckooCache.EpochCollapses`).

Scripts beyond the size limit come back as OP_RETURN, as the comment there says (`Compressor.ScriptRoundTrip`).
The address manager's check does not look at everything (`AddrManCheck.PassingIsConsistent`), which matters
only for tables that no run and no file leads to (`AddrManCheck.StaleAddressPasses`,
`AddrManDisk.LoadedIsOk`).

Two comments of the sources disagree with the code, which the model follows. The comment in
src/cuckoocache.h:423-436 says that the first displacement is with the first place, but it is with the second
(`CuckooCache.FirstSwap`), and that the element just put in is not moved; it is moved back if and only if its
place is listed twice in a row with no earlier mention (`CuckooCache.JustPlacedMoves`,
`CuckooCache.JustPlacedMovesBack`).

## Model

| member | source | states |
|---|---|---|
| `Coins.MergeEntryCorrect` | src/coins.cpp:181-251 | Merging one entry of a child cache keeps the FRESH/DIRTY flags of the parent right about the level below, and the parent then shows at that outpoint exactly what the child showed; if the flags are right, the misapplied FRESH flag for which the code throws does not arise |
| `Coins.AddedEntryOk` | src/coins.cpp:69-107 | The flags of the entry that AddCoin stores are right about the level below if and only if an overwrite was announced, the cache had an entry, or the level below lacks the coin |
| `Coins.OverlayStore` | src/coins.cpp:69-107 | Storing any entry changes the view at its outpoint only, to what the entry shows |
| `Coins.AddedLevel` | src/coins.cpp:69-107 | One stored entry decides whether the flags of its level stay right |
| `Coins.OverlayUnique` | src/coins.cpp:43-67 | The view of a cache over a base is the one map that answers every lookup as GetCoin does |
| `Coins.UsageStore` | src/coins.cpp:69-150 | The running memory total stays the sum over the entries when an entry is stored or replaced |
| `Coins.UsageErase` | src/coins.cpp:128-150 | The same when an entry is erased |
| `Coins.StoreEntry` | src/coins.cpp:69-107 | Storing an entry with right flags keeps a level consistent and changes its view at that outpoint only |
| `Coins.EraseEntry` | src/coins.cpp:128-150 | Erasing an entry keeps a level consistent and uncovers what the base shows there |
| `Coins.SyncedView` | src/coins.cpp:266-281 | After Sync, the cache left behind (clean unspent entries) is consistent with the new base and shows the same view |
| `Coins.MergeAll` | src/coins.cpp:181-251 | A parent that merged every entry of a child is consistent and shows what the child showed |
| `Coins.RightFlagsMerge` | src/coins.cpp:214-226 | A child whose flags are right about the view of its base never brings a misapplied FRESH flag |
| `Coins.CoinsViewDB.BatchWrite` | src/txdb.cpp:91-150 | Without a crash, the database becomes the view the cache showed: dirty unspent coins written, dirty spent ones erased, clean ones ignored; the best block is the new one and the caller keeps its map unless `erase` |
| `Coins.CoinsViewDB.WriteBatches` | src/txdb.cpp:91-150 | A write that may stop after any number of batches, wherever they are cut: it ends with all entries written and the best block set exactly if all its batches reach the disk; if some do, with those entries written and the marker from the old tip to the new one; if none does, with nothing changed. It refuses, changing nothing, to go on towards another block than the marker names |
| `Coins.CoinsViewDB.WriteThrough` | src/txdb.cpp:91-150 | However often the write is interrupted and wherever, writing the same entries again until one write ends gives exactly the view the cache showed |
| `Coins.CommitAgain` | src/txdb.cpp:91-150 | Writing everything over a part of it is the same as writing everything once |
| `Coins.CommitMore` | src/txdb.cpp:91-150 | Interrupted writes of the same entries, one after the other, are one interrupted write |
| `Coins.CommittedView` | src/txdb.cpp:117-140 | With right flags, the database with all dirty entries written is the view of the cache over it |
| `Coins.CoinsViewDB.FindOldTip` | src/txdb.cpp:97-109 | Refuses exactly if the marker of an interrupted write names another block; otherwise the old tip is the one of the marker, or the best block if there is none |
| `Coins.CoinsViewCache.constructor` | src/coins.cpp:34-37 | A new cache over any stack shows the base's view, is consistent and has no best block of its own yet |
| `Coins.CoinsViewCache.FetchCoin` | src/coins.cpp:43-58 | Filling the caches on the way up changes no view at any level; the entry is found exactly if it was cached or the base shows the coin |
| `Coins.CoinsViewCache.GetCoin` | src/coins.cpp:60-67 | Returns the coin of the top view, and false exactly if the view lacks it |
| `Coins.CoinsViewCache.HaveCoin` | src/coins.cpp:161-164 | True exactly if the top view has the coin, without changing any view |
| `Coins.CoinsViewCache.AddCoin` | src/coins.cpp:69-107 | Fails exactly if the cache holds an unspent coin there and no overwrite was announced; otherwise the top view gains the coin (nothing for an unspendable one) and all levels below are untouched. After a success the cache is consistent if and only if the coin is unspendable, an overwrite was announced, the cache had an entry or the level below lacks the coin; after a failure, which changes no entry but leaves the running usage short, if and only if the coin in the way uses no memory of its own |
| `Coins.CoinsViewCache.StoreCoin` | src/coins.cpp:72-100 | The part of AddCoin after the check for an overwrite: what is stored, what the top view becomes, and exactly when the flags stay right |
| `Coins.CoinsViewCache.SpendCoin` | src/coins.cpp:128-150 | The coin leaves the top view and is handed out; the result is true exactly if there was an entry or a visible coin |
| `Coins.CoinsViewCache.SpendEntry` | src/coins.cpp:128-150 | The coin leaves the top view and is handed out: a FRESH entry is erased, any other becomes an empty DIRTY one |
| `Coins.CoinsViewCache.Uncache` | src/coins.cpp:283-296 | Dropping an unmodified entry changes no view; a modified one stays |
| `Coins.CoinsViewCache.BatchWrite` | src/coins.cpp:181-251 | Throws exactly if an entry of the child is FRESH where this cache has an unspent coin, and then has merged some of the entries; otherwise it has merged each once. The memory total is exact in both cases, and with a child whose flags are right it never throws, stays consistent and shows the child's view |
| `Coins.CoinsViewCache.MergeEntries` | src/coins.cpp:182-248 | The loop, in any order: it ends early exactly on a misapplied FRESH flag; what it did is the merge of all entries but those left |
| `Coins.CoinsViewCache.MergeOne` | src/coins.cpp:181-251 | The loop body: one entry is merged, or refused without a change exactly if its FRESH flag is misapplied; the memory total stays exact |
| `Coins.CoinsViewCache.Flush` | src/coins.cpp:253-264 | The top view is unchanged, the level below now shows the same, and the cache is empty |
| `Coins.CoinsViewCache.Sync` | src/coins.cpp:266-281 | The same as Flush but the unspent entries stay, with their flags cleared |
| `Coins.CoinsViewCache.SyncEntries` | src/coins.cpp:266-281 | The loop over all entries |
| `Coins.CoinsViewCache.SyncOne` | src/coins.cpp:266-281 | The loop body: a spent entry goes, any other keeps its coin and loses its flags, with the memory total exact |
| `Coins.CoinsViewCache.SanityCheck` | src/coins.cpp:324-339 | In a consistent cache the recomputed memory is the running total, and no assertion fails: a spent entry is DIRTY or FRESH but not both, an unspent FRESH one is DIRTY |
| `Coins.UsageIs` | src/memusage.h:51-63 | A script uses no memory of its own up to 28 bytes, and above that the least multiple of 16 that leaves 16 bytes to the allocator |
| `Coins.CoinsViewCache.SetBestBlock` | src/coins.cpp:177-179 | Only the best block of the top level changes |
| `Coins.CoinsViewCache.GetBestBlock` | src/coins.cpp:171-175 | The best block of the highest level that has one; remembering it on the way up changes no view and no later answer |
| `Coins.CoinsViewCache.BaseGetBestBlock` | src/coins.cpp:171-175 | The same asked of the level below, a cache or the database |
| `Coins.CoinsViewCache.AddCoins` | src/coins.cpp:117-126 | Every spendable output of the transaction then shows under its own outpoint with its amount and script, the height, and whether the transaction is a coinbase; no other outpoint changes, on no level. Outputs are spendable unless they start with OP_RETURN or are longer than 10000 bytes |
| `Coins.AddTwice` | src/coins.cpp:69-107 | A concrete failing case: a coin whose script uses memory, added twice without an overwrite, leaves a cache that is not consistent |
| `Coins.CoinsViewCache.Apply` | src/coins.cpp:43-296 | Every operation, at any depth of a stack of caches, does to all levels what the specification step does |
| `Coins.CoinsViewCache.ApplyPush` | src/coins.cpp:253-281 | Flush or Sync as one step of the stack |
| `Coins.CoinsViewCache.ApplyBelow` | src/coins.cpp:43-296 | A flush, fetch or uncaching at a lower level leaves the levels above valid and their views unchanged |
| `Coins.CoinsViewCache.Run` | src/coins.cpp:43-296 | Over any legal run on a stack of any height, every level shows what the specification says and the top view is that of one plain map under the same adds and spends |
| `Coins.TopIsPlainMap` | src/coins.cpp:43-296 | Flushes, syncs, fetches and uncaching in any order never show in the top view |
| `HeadersSync.Session.RebuildIsIdentity` | src/headerssync.h:21-53 | The headers rebuilt from the compressed buffer are the received ones if and only if no received header uses one of the fields that the compressed form drops |
| `HeadersSync.Session.UsefulWorkHeaderIsChanged` | src/headerssync.h:21-53 | A concrete header with a useful-work root is released with that root set to null |
| `HeadersSync.Session.ReleasedIsReceived` | src/headerssync.cpp:281-295 | Over any run, what was handed out is what was received if and only if no dropped field was used |
| `HeadersSync.Session.ReleasedIsProven` | src/headerssync.cpp:216-295 | Every released header lies on a redownloaded chain that has reached the required work, or under at least 23 commitments that all matched those of the first download |
| `HeadersSync.Session.WorkIsSum` | src/headerssync.cpp:209 | The work tracked is the start's and the proofs of all headers together, modulo 2^256 |
| `HeadersSync.Session.ReachedIsEnough` | src/headerssync.cpp:245-250 | While that sum fits 256 bits the work never falls along the chain, and it counts as reached exactly if the sum is at least the minimum |
| `HeadersSync.Session.RebuildKeepsFields` | src/headerssync.h:34-52 | Released headers keep the five stored fields, have the others null, and form a chain of their own |
| `HeadersSync.Session.RebuildPrefix` | src/headerssync.cpp:281-295 | Releasing in parts gives the same headers as releasing at once |
| `HeadersSync.Session.CommitsCount` | src/headerssync.cpp:196-207 | The number of commitments of a chain depends only on its heights: one for each height at the offset in the period |
| `HeadersSync.Session.BuriedUnderCommitments` | src/headerssync.cpp:251-295 | A header with a full redownload buffer of checked successors lies under at least 23 matching commitments |
| `HeadersSync.Session.CheckNext` | src/headerssync.cpp:251-271 | The check against the front of the remaining bits accepts exactly the headers that keep the chain consistent with all commitments of the first download |
| `HeadersSync.Session.SameHeadersMatch` | src/headerssync.cpp:244-271 | A second download that repeats the first passes every commitment check and reaches the work |
| `HeadersSync.HeadersSyncState.constructor` | src/headerssync.cpp:26-47 | A new sync is in PRESYNC with nothing received |
| `HeadersSync.HeadersSyncState.Finalize` | src/headerssync.cpp:52-64 | The state becomes final, with buffers, commitments, last header and hashes cleared; what was released stays proven |
| `HeadersSync.HeadersSyncState.ValidateAndProcessSingleHeader` | src/headerssync.cpp:178-214 | Accepts exactly the headers with a permitted difficulty whose commitment still fits, and tracks height, work and commitments of the whole chain |
| `HeadersSync.HeadersSyncState.ValidateAndStoreHeadersCommitments` | src/headerssync.cpp:140-176 | Accepts exactly the messages that continue the chain with permitted difficulties within the commitment limit, and switches to REDOWNLOAD exactly when the chain's work suffices |
| `HeadersSync.HeadersSyncState.StartRedownload` | src/headerssync.cpp:166-174 | The redownload starts from the chain start with all commitments still to check |
| `HeadersSync.HeadersSyncState.ValidateAndStoreRedownloadedHeader` | src/headerssync.cpp:216-279 | Accepts exactly the headers that extend the redownloaded chain with a permitted difficulty and agree with the stored commitments until the work is reached |
| `HeadersSync.HeadersSyncState.ConnectsWithPermittedBits` | src/headerssync.cpp:223-242 | The first checks accept exactly a header that extends the chain with a permitted difficulty |
| `HeadersSync.HeadersSyncState.TrackWorkAndCommitment` | src/headerssync.cpp:244-271 | The work total and the commitment check are those of the whole redownloaded chain |
| `HeadersSync.HeadersSyncState.CheckCommitment` | src/headerssync.cpp:257-271 | A commitment is consumed exactly at the heights of the period, and failing is having run out of bits or a different bit |
| `HeadersSync.HeadersSyncState.StoreHeader` | src/headerssync.cpp:273-276 | Appending to the compressed buffer keeps it the compressed form of the unreleased headers |
| `HeadersSync.HeadersSyncState.PopHeadersReadyForAcceptance` | src/headerssync.cpp:281-295 | Releases, in order, exactly the headers beyond a full buffer, or all of them once the work is reached |
| `HeadersSync.HeadersSyncState.PopFront` | src/headerssync.cpp:288-293 | The released header is the rebuilt one and links to the header released before it |
| `HeadersSync.HeadersSyncState.StoreRedownloadedHeaders` | src/headerssync.cpp:104-113 | Succeeds exactly if every header of the message passes |
| `HeadersSync.HeadersSyncState.ProcessPresync` | src/headerssync.cpp:80-98 | Result flags and next state of a message in PRESYNC, with nothing released |
| `HeadersSync.HeadersSyncState.ProcessRedownload` | src/headerssync.cpp:99-134 | Result flags, released headers and next state of a message in REDOWNLOAD |
| `HeadersSync.HeadersSyncState.ProcessNextHeaders` | src/headerssync.cpp:66-138 | From any reachable state: what one message returns, which state follows, and that everything released so far stays proven. While the sum of the work fits 256 bits, the first phase ends exactly when the start's work and the proofs of all headers together reach the minimum, and in the second all headers are released once they do |
| `HeadersSync.ServePresync` | src/headerssync.cpp:66-176 | A peer that serves a connected chain of enough work in full messages, the last of which may be short, gets through PRESYNC however it cuts the chain |
| `HeadersSync.ServeNext` | src/headerssync.cpp:99-134 | One further message of a repeated chain, full or the short last one, succeeds, and ends the sync exactly when the work is reached |
| `HeadersSync.ServeRedownload` | src/headerssync.cpp:99-134 | A peer that serves the same chain again, with a last message that may be short, is accepted to the end; at most the last message reaches past the first download |
| `HeadersSync.ServeBoth` | src/headerssync.cpp:66-295 | An honest peer completes both phases with independent portions, the last of which may be short: the sync ends with all redownloaded headers released, equal to those received if and only if no dropped field was used |
| `CheckQueue.BatchFits` | src/checkqueue.h:105-113 | A batch is never empty and never longer than the queue |
| `CheckQueue.BatchIs` | src/checkqueue.h:105-113 | A thread takes the most checks, within the batch size, that all threads and one more could each take from the queue; at least one |
| `CheckQueue.CleanUpOk` | src/checkqueue.h:76-86 | Booking a finished batch, or registering a thread, keeps the invariant and touches neither the queue nor the set of added checks |
| `CheckQueue.FinishOk` | src/checkqueue.h:77-82 | A finished batch leaves the books right, and the last one notifies the master |
| `CheckQueue.TakeOk` | src/checkqueue.h:105-116 | Taking a batch moves checks from the queue to the thread without losing or repeating one |
| `CheckQueue.ReturnOk` | src/checkqueue.h:89-96 | A master that returns gives the verdict over all checks added since the last return and resets the status |
| `CheckQueue.LoopHeadOk` | src/checkqueue.h:87-116 | Whatever the rest of a critical section does keeps the invariant; Wait returns exactly when the queue is empty and nothing is outstanding, with the right verdict |
| `CheckQueue.CheckOk` | src/checkqueue.h:117-121 | Executing or skipping one check keeps the invariant |
| `CheckQueue.AddOk` | src/checkqueue.h:156-173 | Adding a list keeps the invariant, whichever worker a single notification wakes |
| `CheckQueue.NextOk` | src/checkqueue.h:66-173 | Every step of every thread keeps the invariant, and a returned verdict is right |
| `CheckQueue.InitialOk` | src/checkqueue.h:130-140 | A new queue with any number of workers, including none, satisfies the invariant |
| `CheckQueue.ReadyIsEnabled` | src/checkqueue.h:66-173 | In every reachable state the counters never stand in the way of a step, so they never wrap below zero |
| `CheckQueue.RunOk` | src/checkqueue.h:66-173 | Along every run all verdicts are right |
| `CheckQueue.EveryRunIsRight` | src/checkqueue.h:66-173 | For every interleaving of any number of workers: each Wait returns true if and only if all checks added since the previous Wait hold, and the counters count the threads and outstanding checks |
| `CheckQueue.RankNeverGrows` | src/checkqueue.h:66-123 | No step inside the loop adds work, and executing a check or finishing a batch removes some |
| `CheckQueue.NextMove` | src/checkqueue.h:66-123 | As long as a Wait has not returned, some thread can take a step of the loop without a spurious wake-up: the master, or a worker it waits for |
| `CheckQueue.StepCounts` | src/checkqueue.h:66-123 | Every such step takes away work, or leaves the work and takes away a thread that is due to run |
| `CheckQueue.WaitGoesOn` | src/checkqueue.h:66-123 | Until it returns, a Wait goes on as a Wait with fewer steps left |
| `CheckQueue.WaitMustFinish` | src/checkqueue.h:66-123 | Every schedule of loop steps without spurious wake-ups is finite, with a bound that the state gives, and can stop only after the return |
| `CheckQueue.WaitingMasterHasWorker` | src/checkqueue.h:77-99 | A master waiting without a notification has a worker running a batch for it: no wake-up is lost |
| `CheckQueue.WaitCanFinish` | src/checkqueue.h:66-123 | From every reachable state of a Wait there is a schedule of loop steps in which only notified threads wake and which ends with the return |
| `CheckQueue.MasterIsNeverStranded` | src/checkqueue.h:66-173 | After every run that ends within a Wait, with any number of workers: however the threads go on, if only notified ones wake, there are at most that many steps until the Wait returns, and as long as it has not some thread can go on. There is no deadlock and no lost wake-up |
| `CheckQueue.AddIs` | src/checkqueue.h:158-175 | Adding one check notifies at most one waiting worker, adding more notifies all of them |
| `CheckQueue.StopIs` | src/checkqueue.h:177-184 | A requested stop notifies every waiting worker and changes nothing else |
| `CheckQueue.StopMustEnd` | src/checkqueue.h:177-184 | After a stop there is a bound on the steps the workers take in whatever order, and as long as one has not exited some step is possible |
| `CheckQueue.WorkersExit` | src/checkqueue.h:177-184 | After every run, with any number of workers: once a stop is requested every worker exits, so the joins of the destructor return |
| `AddrIndex.BlankOk` | src/addrman.cpp:111-127 | The empty tables are consistent |
| `AddrIndex.StatsOk` | src/addrman.cpp:695-712 | Changing the statistics of an entry keeps the tables consistent |
| `AddrIndex.CreateOk` | src/addrman.cpp:418-432 | A created entry is the only one without a reference; all maps, the random order and the counters agree on it |
| `AddrIndex.SwapOk` | src/addrman.cpp:434-456 | Swapping two places of the random order keeps every entry's own position right |
| `AddrIndex.DeleteOk` | src/addrman.cpp:458-473 | Deleting an unreferenced entry leaves no trace of it in maps, tables or counters |
| `AddrIndex.DropRefOk` | src/addrman.cpp:475-491 | Clearing a slot of the new table takes exactly one reference from its entry |
| `AddrIndex.AddRefOk` | src/addrman.cpp:612-615 | Filling an empty slot of the new table gives exactly one reference to the entry |
| `AddrIndex.DetachOk` | src/addrman.cpp:508-509 | An entry leaving the new table is no longer in the counts of new entries |
| `AddrIndex.AttachOk` | src/addrman.cpp:536-540 | An evicted entry is back in the counts of new entries |
| `AddrIndex.UntryOk` | src/addrman.cpp:524-528 | A tried entry that leaves its slot is out of the tried counts |
| `AddrIndex.TryOk` | src/addrman.cpp:544-549 | An entry that enters its empty tried slot is in the tried counts |
| `AddrIndex.MadeTriedEvolves` | src/addrman.cpp:493-550 | Moving an entry to the tried table reuses no id for another address and vacates no tried slot |
| `AddrIndex.AddedUnknown` | src/addrman.cpp:596-626 | Adding an unknown address loses nothing but the entry whose last reference was in the slot it took; a failed attempt loses nothing |
| `AddrIndex.AddedKnown` | src/addrman.cpp:567-626 | The same for one more reference to a known address |
| `AddrIndex.CollisionsEvolve` | src/addrman.cpp:905-994 | A pending collision that is still alive keeps an occupied tried slot through everything that follows |
| `AddrIndex.RoutableEvolve` | src/addrman.cpp:556-557 | If all addresses are routable, they stay so |
| `AddrIndex.OkTriedSlot` | src/addrman.cpp:968-994 | An occupied tried slot names a live tried entry, so no entry is ever made up under the id -1 |
| `AddrIndex.TriedPerGroup` | src/addrman.cpp:49-54 | In every consistent manager at most 512 tried entries belong to any one network group |
| `AddrIndex.NewPerSourceGroup` | src/addrman.cpp:56-62 | All addresses that sources of one network group can announce go to 64 of the 1024 new buckets |
| `AddrMan.AddrManImpl.constructor` | src/addrman.cpp:111-127 | A new manager has empty, consistent tables |
| `AddrMan.AddrManImpl.SwapRandom` | src/addrman.cpp:434-456 | Exchanges two places of the random order and nothing else |
| `AddrMan.AddrManImpl.Delete` | src/addrman.cpp:458-473 | The entry is gone, all other entries are as they were, and the tables are consistent |
| `AddrMan.AddrManImpl.ClearNew` | src/addrman.cpp:475-491 | The slot is empty; its entry has one reference less, or is gone if that was the last |
| `AddrMan.AddrManImpl.RemoveFromNew` | src/addrman.cpp:497-507 | The entry is in no slot of the new table any more, although the walk stops at the last expected reference |
| `AddrMan.AddrManImpl.RemoveReference` | src/addrman.cpp:502-506 | One reference of the entry goes |
| `AddrMan.AddrManImpl.EvictTried` | src/addrman.cpp:517-543 | The entry of an occupied tried slot is new again in its home slot, whose former reference is gone |
| `AddrMan.AddrManImpl.LeaveTried` | src/addrman.cpp:524-528 | The evicted entry leaves slot, flag and counts |
| `AddrMan.AddrManImpl.ReenterNew` | src/addrman.cpp:530-540 | The evicted entry gets exactly one reference, in its home slot |
| `AddrMan.AddrManImpl.MakeTried` | src/addrman.cpp:493-550 | The entry sits in its tried slot with no reference in the new table; the entry that sat there, if any, is new in its home slot; nothing else changes but the reference displaced there |
| `AddrMan.AddrManImpl.LeaveNewCount` | src/addrman.cpp:508-509 | The entry is not counted as new |
| `AddrMan.AddrManImpl.EnterTried` | src/addrman.cpp:544-549 | The entry is tried, in its own slot, and counted |
| `AddrMan.AddrManImpl.UpdateStats` | src/addrman.cpp:695-712 | Writing an entry's statistics in place keeps everything consistent if and only if its times make sense |
| `AddrMan.AddrManImpl.Create` | src/addrman.cpp:418-432 | A new entry gets the next id and the last place of the random order |
| `AddrMan.AddrManImpl.PlaceNew` | src/addrman.cpp:601-625 | The slot is written exactly if it was empty, its entry is terrible, or its entry has other references and this one has none; an entry left without references is deleted |
| `AddrMan.TerribleIs` | src/addrman.cpp:71-95 | Terrible, unless tried within the last minute: over ten minutes in the future, older than thirty days, three attempts without any success, or ten since a success over a week ago |
| `AddrMan.AddrManImpl.InsertReference` | src/addrman.cpp:612-615 | The slot holds the entry; the former occupant has one reference less or is gone |
| `AddrMan.AddrManImpl.AddSingle` | src/addrman.cpp:552-626 | Outcome and tables for every address: unroutable ones change nothing; an unknown one gets an entry exactly if its slot may be written; a known one is refreshed and gets one more reference exactly if the announcement is news, the entry is new with references to spare, the draw was lucky and the slot may be written; no entry is lost but one whose only reference was in the slot taken. The slot is the one the two hashes of the source's group name |
| `AddrMan.AddrManImpl.CreatePenalized` | src/addrman.cpp:597-598 | The new entry's time is reduced by the penalty, not below zero |
| `AddrMan.AddrManImpl.AddUnknown` | src/addrman.cpp:596-626 | AddSingle for an address without an entry |
| `AddrMan.AddrManImpl.AddKnown` | src/addrman.cpp:567-626 | AddSingle for an address with an entry; it keeps its id |
| `AddrMan.Refresh` | src/addrman.cpp:567-578 | The announced time replaces the known one, less the penalty and never below zero, if it is newer by over an hour for an address that is online and over a day otherwise; services are only added |
| `AddrMan.AddrManImpl.Add` | src/addrman.cpp:683-693 | Every address of the list is added in turn, and the result is true exactly if one of them was added |
| `AddrMan.AddrManImpl.Attempt` | src/addrman.cpp:695-712 | Only the entry's try times and, if it counts since the last good connection, its attempts change; the tables stay consistent unless the time is negative |
| `AddrMan.AddrManImpl.Good` | src/addrman.cpp:628-681 | The entry moves to the tried table, to the slot the two hashes of its own group name, unless it is there already or the slot is taken and must be tested first; a taken slot is noted as a collision while there are fewer than ten |
| `AddrMan.AddrManImpl.ConnectedTo` | src/addrman.cpp:870-887 | Only the entry's time changes, and only if it is over twenty minutes old |
| `AddrMan.AddrManImpl.SetServices` | src/addrman.cpp:889-903 | Only the entry's services change |
| `AddrMan.AddrManImpl.ResolveOne` | src/addrman.cpp:905-966 | What becomes of one pending collision: it is dropped if its address is gone or invalid, or if the address in its slot succeeded within four hours; else it takes the slot if that address was last tried within four hours but over a minute ago, or was not tried within four hours and its own last success is over forty minutes ago; else it stays pending. The branch for a slot that is no longer taken is never reached |
| `AddrMan.AddrManImpl.ResolveCollisions` | src/addrman.cpp:905-966 | Every pending collision is handled once, each with the outcome of its own tables and time, and exactly the settled ones are removed |
| `AddrMan.AddrManImpl.SelectTriedCollision` | src/addrman.cpp:968-994 | Returns the entry in the tried slot of a live pending collision; only a dead collision is dropped |
| `AddrMan.AddrManImpl.GetAddr` | src/addrman.cpp:808-844 | A sample without repetition: eligible entries only, at most the limit, and all eligible ones if fewer are returned; the entries are unchanged |
| `AddrMan.SampleSize` | src/addrman.cpp:812-818 | The given percentage of all entries and no more than the given number, where zero stands for no limit |
| `AddrMan.AddrManImpl.Shuffle` | src/addrman.cpp:827-828 | A step of the shuffle leaves the places already drawn alone |
| `AddrMan.AddrManImpl.Apply` | src/addrman.cpp:403-1038 | Every operation keeps all tables consistent |
| `AddrMan.AddrManImpl.Run` | src/addrman.cpp:403-1038 | Over every run: maps, random order, both tables, reference counts and all counters agree, ids are never reused, only routable addresses enter, and no tried slot is vacated |
| `AddrManCheck.OkPasses` | src/addrman.cpp:1056-1159 | Every consistent manager with a key passes the check |
| `AddrManCheck.PassingIsConsistent` | src/addrman.cpp:1056-1159 | A manager with a key is consistent if and only if it passes the check and three things hold that the check does not look at: no stale addresses, ids in range, and every network with an entry has a counter |
| `AddrManCheck.StaleAddressPasses` | src/addrman.cpp:1056-1159 | A limit of the check, on tables that no run and no file leads to: an address mapped to an id without an entry is not noticed |
| `AddrManCheck.CheckEntry` | src/addrman.cpp:1070-1101 | Code 0 exactly if the entry's own clauses hold |
| `AddrManCheck.CheckEntries` | src/addrman.cpp:1070-1101 | Code 0 exactly if every entry passes; then the sets and local counts are those of the entries, whatever the order of the walk |
| `AddrManCheck.CheckTriedTable` | src/addrman.cpp:1108-1123 | Code 0 exactly if every occupied slot holds a tried entry at its own place; nothing is left over exactly if all tried entries were met |
| `AddrManCheck.CheckNewTable` | src/addrman.cpp:1125-1138 | Counting down the expected references finds an error exactly if a slot is wrong or a count is not exact |
| `AddrManCheck.CheckNetworks` | src/addrman.cpp:1147-1156 | Code 0 exactly if every network counter equals the count of the entries and there are no fewer counters than networks |
| `AddrManCheck.CheckAddrman` | src/addrman.cpp:1056-1159 | Returns 0 if and only if all the clauses hold, the one that the key is not null among them; any other code names a clause that does not |
| `AddrManCheck.TriedScannedNext` | src/addrman.cpp:1110-1121 | A tried slot is refused exactly if it holds no tried entry at its own place; an entry cannot be met twice |
| `AddrManCheck.NewScannedMeet` | src/addrman.cpp:1127-1136 | Meeting an expected reference brings its count down by one |
| `AddrManCheck.NewScannedExcess` | src/addrman.cpp:1127-1136 | A reference that is not expected any more means that the reference counts are wrong |
| `AddrManDisk.TriedEntryOk` | src/addrman.cpp:297-315 | A tried entry of the file, created straight in its empty slot, keeps the tables consistent |
| `AddrManDisk.NewEntryLoads` | src/addrman.cpp:285-292 | The k-th new entry of the file gets the id k and everything that was written of it |
| `AddrManDisk.TriedEntryLoads` | src/addrman.cpp:297-315 | The same for the tried entries, after the new ones; none is lost to a taken slot |
| `AddrManDisk.RoomForReference` | src/addrman.cpp:358-361 | The limit on references never drops one that was written |
| `AddrManDisk.ReferenceReturns` | src/addrman.cpp:350-378 | A reference of the file goes back to the slot it was in |
| `AddrManDisk.RowReturns` | src/addrman.cpp:323-378 | The same for all references of a bucket |
| `AddrManDisk.RowsReturn` | src/addrman.cpp:323-378 | The same for all buckets |
| `AddrManDisk.RefCountsReturn` | src/addrman.cpp:350-378 | With the new table back, every reference count is what it was |
| `AddrManDisk.TriedTableReturns` | src/addrman.cpp:297-315 | The tried table, which is not written, is rebuilt slot for slot |
| `AddrManDisk.AllIsBack` | src/addrman.cpp:232-401 | Once all references are back, the loaded manager is the written one up to the renaming of ids |
| `AddrManDisk.RenamingIsBijective` | src/addrman.cpp:193-212 | Different ids are written under different numbers |
| `AddrManDisk.SizesFit` | src/addrman.cpp:270-282 | The counts of a consistent manager never exceed what the reader accepts |
| `AddrManDisk.PickCounts` | src/addrman.cpp:195-212 | The counters written are the numbers of entries written, so the assertions hold |
| `AddrManDisk.EntryFormed` | src/addrman.cpp:285-315 | Appending an entry of a file, even one with an address seen before, keeps the random order, the address map and the network counters in line with the entries |
| `AddrManDisk.DeletedFormed` | src/addrman.cpp:458-473 | So does deleting an entry of any such tables, which takes out nothing else |
| `AddrManDisk.PrunedIs` | src/addrman.cpp:380-390 | The entries left by pruning are exactly the used ones, unchanged |
| `AddrManDisk.NoneUnused` | src/addrman.cpp:380-390 | After a walk over all ids, whatever its order, no unused entry is left |
| `AddrManDisk.TablesFormed` | src/addrman.cpp:284-378 | So the tables read from any file at all are well formed |
| `AddrManDisk.LoadedIsOk` | src/addrman.cpp:232-401 | A file loads if and only if it is readable, there is a key and its pruned tables are consistent: what the final check does not look at holds of every file |
| `AddrManDisk.ReadableIs` | src/addrman.cpp:239-282 | A readable file has a known lowest compatible version, lists that fit the tables, and the number of its buckets, with bit 30 flipped from format 1 on |
| `AddrManDisk.TriedOfFile` | src/addrman.cpp:297-315 | Whatever the file says, the tried table holds at each place the first valid address listed that belongs there, with the fields listed, and nothing else |
| `AddrManDisk.RowsRehomed` | src/addrman.cpp:350-378 | Buckets that do not fit any more: every mention of a valid entry finds its home slot taken, by itself or by an earlier one, and no entry has more than the one reference there |
| `AddrManDisk.RebucketedFile` | src/addrman.cpp:350-390 | With another number of buckets or another address map, a new entry survives if and only if a bucket mentions it, it is valid and its home slot holds it; it then has one reference and the fields listed, and the home slot of one that does not survive is held by one that does |
| `AddrManDisk.WrittenHeader` | src/addrman.cpp:130-192 | Every file written says format 4, lowest compatible version 4 above the base of 32, and 1024 buckets with bit 30 flipped |
| `AddrManDisk.ReferencesOfFile` | src/addrman.cpp:331-390 | Whatever the file says, the references left are exact: each sits at its entry's position, and every entry of the new table has as many as are counted, one to eight. With buckets that fit, every mention of a valid entry has its reference in its bucket, or found that slot and the home slot taken, unless the entry has eight |
| `AddrManDisk.RoundTrip` | src/addrman.cpp:134-401 | Reading what was written succeeds exactly if the key is not null, and gives the same manager up to the renaming of ids, whatever the order in which the map is walked on either side |
| `AddrManDisk.WriteEntries` | src/addrman.cpp:193-212 | The entries of one kind in walking order, and for each id its number among them |
| `AddrManDisk.WriteRow` | src/addrman.cpp:213-226 | The numbers of the entries in a bucket, in order of position |
| `AddrManDisk.Serialize` | src/addrman.cpp:134-229 | The file of a consistent manager |
| `AddrManDisk.ReadEntries` | src/addrman.cpp:284-316 | Whatever the two lists say, among them repeated addresses and invalid ones: the entries have consecutive ids, every known address leads to its own entry, the random order and the network counters cover exactly the entries |
| `AddrManDisk.ReadRow` | src/addrman.cpp:323-378 | Placing the references of any bucket of a file keeps the tables well formed; with buckets that fit they go to their own slots, otherwise each valid entry to the slot of its source |
| `AddrManDisk.ReadRows` | src/addrman.cpp:323-378 | The same for all buckets |
| `AddrManDisk.PruneUnused` | src/addrman.cpp:380-390 | No entry without a reference is left, and all others are as they were |
| `AddrManDisk.ReadTables` | src/addrman.cpp:284-390 | The tables of any file are well formed, whatever the file says: shape, random order, address map and a counter for every network; with the same address map and number of buckets the references stay where they were, otherwise they are placed anew |
| `AddrManDisk.Unserialize` | src/addrman.cpp:232-401 | Succeeds exactly on readable files whose tables pass the consistency check; every file that loads, written by this program or not, gives a consistent manager, whose tried table holds at each place the first valid address of the file that belongs there. With buckets that fit, references stay in their buckets as far as there is room; a file with another number of buckets or another address map loses exactly the new entries that no bucket mentions, that are invalid, or whose home slot another one took, and the others have one reference each |
| `AddrManDisk.SaveAndLoad` | src/addrman.cpp:134-401 | A valid manager with a key, written and read into an empty one, gives a valid manager with the same entries, tables and counts |
| `AddrManDisk.RunSaveAndLoad` | src/addrman.cpp:134-401 | After any run from the empty manager, saving and loading succeeds exactly if the key is not null, and loses nothing |
| `ArithUint256.AddAssign` | src/arith_uint256.h:125-135 | Addition modulo 2^(32 n) on n limbs |
| `ArithUint256.Increment` | src/arith_uint256.h:163-170 | Plus one, modulo |
| `ArithUint256.Decrement` | src/arith_uint256.h:180-187 | Minus one, modulo |
| `ArithUint256.Complement` | src/arith_uint256.h:59-65 | 2^(32 n) - 1 minus the value |
| `ArithUint256.Negate` | src/arith_uint256.h:67-74 | The additive inverse modulo 2^(32 n) |
| `ArithUint256.SubtractAssign` | src/arith_uint256.h:137-141 | Subtraction modulo 2^(32 n) |
| `ArithUint256.CompareTo` | src/arith_uint256.cpp:101-111 | The order of the values, and 0 exactly for equal limbs |
| `ArithUint256.MultiplyRow` | src/arith_uint256.cpp:64-69 | One row of the school method with its exact carry |
| `ArithUint256.MultiplyAssign` | src/arith_uint256.cpp:59-73 | Multiplication modulo 2^(32 n) |
| `ArithUint256.ScaleAssign` | src/arith_uint256.cpp:47-57 | Multiplication by a 32-bit number, modulo |
| `ArithUint256.RowAddedNext` | src/arith_uint256.cpp:64-69 | The 64-bit intermediate never wraps |
| `ArithUint256.ShiftLeftAssign` | src/arith_uint256.cpp:13-28 | Multiplication by 2^shift modulo 2^(32 n), for every shift |
| `ArithUint256.ShiftRightAssign` | src/arith_uint256.cpp:30-45 | Division by 2^shift, for every shift |
| `ArithUint256.LeftStepValue` | src/arith_uint256.cpp:21-26 | What one limb of a left shift adds and what falls out at the top |
| `ArithUint256.RightStepValue` | src/arith_uint256.cpp:38-43 | What one limb of a right shift adds |
| `ArithUint256.Bits` | src/arith_uint256.cpp:155-168 | The number of significant bits: 0 for zero, else r with 2^(r-1) <= value < 2^r |
| `ArithUint256.SetBit` | src/arith_uint256.cpp:92 | Setting a quotient bit adds its power of two |
| `ArithUint256.DividingNext` | src/arith_uint256.cpp:89-96 | Compare, subtract and halve keep quotient times divisor plus remainder equal to the dividend |
| `ArithUint256.DivideRound` | src/arith_uint256.cpp:89-96 | One round of the shift-and-subtract loop |
| `ArithUint256.DivideAssign` | src/arith_uint256.cpp:75-99 | The floor of the quotient; refused exactly for a zero divisor |
| `CompactTarget.OverflowIsExact` | src/arith_uint256.cpp:175-193 | The overflow flag is set if and only if the encoded number does not fit 256 bits |
| `CompactTarget.MeaningIs` | src/arith_uint256.cpp:175-195 | The number read from a size byte, a sign bit and 23 bits: the 23 bits times 256 to the power of the size less three, rounded down |
| `CompactTarget.ReadBack` | src/arith_uint256.cpp:175-216 | Encoding and decoding a number never raises it and lowers it by at most one part in 2^15 |
| `CompactTarget.SignKept` | src/arith_uint256.cpp:195-216 | The sign survives, except that zero has none, and does not change the magnitude |
| `CompactTarget.CompactMonotone` | src/arith_uint256.cpp:195-216 | Larger numbers have encodings at least as large |
| `CompactTarget.CompactIsCanonical` | src/arith_uint256.cpp:195-216 | Every encoding is canonical |
| `CompactTarget.WriteBack` | src/arith_uint256.cpp:175-216 | Reading 32 bits into 256 and writing them again gives the same 32 bits if and only if they are canonical and do not overflow |
| `CompactTarget.OverflowNotWrittenBack` | src/arith_uint256.cpp:175-216 | A concrete failing input: 0x23008000 is canonical and overflows, and is written back as 0 |
| `CompactTarget.LongFormNotWrittenBack` | src/arith_uint256.cpp:175-216 | Another: 0x04001234 does not overflow, has a zero leading byte, and is written back as 0x03123400 |
| `CompactTarget.ReadAndWrite` | src/arith_uint256.cpp:175-216 | The same equivalence for the two methods run on limbs |
| `CompactTarget.Assign` | src/arith_uint256.h:78-85 | Assignment from 64 bits |
| `CompactTarget.Low64Is` | src/arith_uint256.h:233-237 | The value modulo 2^64 |
| `CompactTarget.EqualTo` | src/arith_uint256.cpp:113-125 | True exactly if the value is the 64-bit number |
| `CompactTarget.SetCompact` | src/arith_uint256.cpp:175-193 | Value and both flags are those of the encoded number, the value modulo 2^256 |
| `CompactTarget.RoomForSign` | src/arith_uint256.cpp:205-210 | Moving the mantissa down by a byte when its sign bit is set gives the canonical exponent and mantissa |
| `CompactTarget.FirstRead` | src/arith_uint256.cpp:197-204 | Reading the mantissa through 64 and 32 bits loses nothing |
| `CompactTarget.Pack` | src/arith_uint256.cpp:211-215 | The three fields do not overlap |
| `CompactTarget.GetCompact` | src/arith_uint256.cpp:195-216 | The canonical encoding of the value |
| `CompactTarget.TargetPlusOneFits` | src/chain.cpp:131-144 | No decoded target is the largest 256-bit number, so adding one does not wrap |
| `CompactTarget.WorkFormula` | src/chain.cpp:139-143 | The complement formula is 2^256 divided by target plus one, without leaving 256 bits |
| `CompactTarget.GetBlockProof` | src/chain.cpp:131-144 | The limbs of the block's work: 2^256 divided by the target plus one, rounded down, computed without leaving 256 bits; zero for the targets that `NoWork` lists |
| `CompactTarget.WorkPositive` | src/chain.cpp:131-144 | The work is positive if and only if the target is valid |
| `CompactTarget.NoWork` | src/chain.cpp:137-138 | No work is counted exactly for targets that are zero, that are negative, or that do not fit 256 bits |
| `CompactTarget.WorkAntitone` | src/chain.cpp:131-144 | A smaller target stands for at least as much work |
| `SkipHeights.ClearsLowestOne` | src/chain.cpp:79-80 | The bit trick clears the lowest one bit and nothing else |
| `SkipHeights.GetSkipHeight` | src/chain.cpp:82-91 | The height to skip to is strictly lower |
| `SkipHeights.NoBetterSkip` | src/chain.cpp:104-108 | Where the comparison with the next block's skip link says no, below an odd multiple of a power of two |
| `SkipHeights.SevenBack` | src/chain.cpp:83-91 | One below a multiple of eight the skip link leads seven back |
| `SkipHeights.OddSkip` | src/chain.cpp:101-115 | At an odd height the skip link is followed unless it passes the target |
| `SkipHeights.NearSteps` | src/chain.cpp:101-116 | The number of links from a multiple of 2^k to a target less than 2^k below grows with the square of k |
| `SkipHeights.DescentSteps` | src/chain.cpp:101-116 | From an odd height, one link for every two powers of two and then the last stretch |
| `SkipHeights.ClimbSteps` | src/chain.cpp:101-116 | From a multiple of eight, links to multiples of ever larger powers of two and then the last stretch |
| `SkipHeights.TwoSteps` | src/chain.cpp:101-116 | From an odd multiple of two, where the next block's skip link may be the better one |
| `SkipHeights.FourSteps` | src/chain.cpp:101-116 | The same from an odd multiple of four |
| `SkipHeights.FewSteps` | src/chain.cpp:93-118 | From any height below 2^n to any target, GetAncestor follows at most n * (n + 8) / 4 links, and seven fewer from n = 11 on |
| `SkipHeights.AtMost110` | src/chain.cpp:87-89 | The figure of the comment on GetSkipHeight, found there by simulation: at most 110 links from any height up to 2^18 |
| `Chain.PathAt` | src/chain.h:149-164 | The path of a block on a path is the part up to it, height by height |
| `Chain.SkipAt` | src/chain.cpp:125-129 | A skip leads to the block of the path at the skip height |
| `Chain.BackIsPath` | src/chain.cpp:93-118 | Following predecessors n times leads n places down the path |
| `Chain.PathHeights` | src/chain.h:149-216 | Heights count up along a path and the running time maximum never falls |
| `Chain.BlockIndex.constructor` | src/node/blockstorage.cpp:207-230 | A new entry extends its predecessor's path, with height, time maximum and total work to match |
| `Chain.BlockIndex.GetAncestor` | src/chain.cpp:93-123 | Whatever skips it takes, the result is the ancestor that following single predecessors gives, and none for heights out of range. With the skip links in place it follows at most b * (b + 8) / 4 links from a height of b bits, and at most 110 up to height 2^18 |
| `Chain.StepLimit` | src/chain.cpp:93-118 | The bound in terms of the number of bits of the height |
| `Chain.BlockIndex.BuildSkip` | src/chain.cpp:125-129 | The skip is to the ancestor at the skip height |
| `Chain.MapGrows` | src/node/blockstorage.cpp:207-239 | The block map stays closed under predecessors and skips when an entry is added |
| `Chain.BlockManager.constructor` | src/node/blockstorage.cpp:207-239 | The empty map is valid |
| `Chain.BlockManager.AddToBlockIndex` | src/node/blockstorage.cpp:207-239 | A known hash changes nothing; a new one gets an entry over its predecessor with its skip link in place and the work summed, and the best header is the first with the most work |
| `Chain.BestGrows` | src/node/blockstorage.cpp:232-234 | The best header has the most work of all entries |
| `Chain.SharedPrefix` | src/chain.cpp:21-29 | Two paths through one block agree below it |
| `Chain.EarlyStop` | src/chain.cpp:21-29 | When the walk down meets a block already in place, all below is in place |
| `Chain.ActiveChain.constructor` | src/chain.h:463-471 | The empty chain is valid |
| `Chain.ActiveChain.ContainsIsMember` | src/chain.h:493-497 | Comparing at the block's height decides membership |
| `Chain.ActiveChain.NextIsSuccessor` | src/chain.h:499-506 | The successor is the chain's block over the given one; none exactly for the tip and foreign blocks |
| `Chain.ActiveChain.SetTip` | src/chain.cpp:21-29 | The chain is the path of the new tip, although the walk stops early |
| `Chain.ActiveChain.SetTips` | src/chain.cpp:21-29 | The same after any sequence of reorganisations |
| `Chain.ActiveChain.FindFork` | src/chain.cpp:60-69 | The last block that the path shares with the chain |
| `Chain.ActiveChain.FindEarliestAtLeast` | src/chain.cpp:71-77 | The lowest block with time maximum and height at least the given ones, found by bisection |
| `Chain.LastSharedIsHighest` | src/chain.cpp:163-180 | The last shared block is the highest of all common ones, and the paths agree exactly up to it |
| `Chain.LastCommonAncestor` | src/chain.cpp:163-180 | The last shared block of two paths, none if their starts differ |
| `Chain.LocatorHeights` | src/chain.cpp:31-48 | A locator starts at the given height and ends at 0 |
| `Chain.LocatorDescends` | src/chain.cpp:31-48 | Its heights strictly descend |
| `Chain.LocatorIsShort` | src/chain.cpp:31-48 | A locator has at most 12 entries more than the height has bits |
| `Chain.LocatorAt` | src/chain.cpp:31-48 | The heights of a locator: the tip, its ten predecessors, then blocks 1, 2, 4, 8, ... further down, and the first block of the chain |
| `Chain.LocatorEntries` | src/chain.cpp:31-48 | The hashes are those of the path at these heights |
| `Chain.WalkLocator` | src/chain.cpp:38-46 | The loop collects them through skips |
| `Base58.DigitOfChar` | src/base58.cpp:18-36 | The reverse table maps every character of the alphabet to its place |
| `Base58.CharOfDigit` | src/base58.cpp:18-36 | The table accepts no other character |
| `Base58.AlphabetIs` | src/base58.cpp:17-36 | The alphabet is the digits and letters in the order of their codes, without 0, O, I and l |
| `Base58.SpaceIs` | src/util/strencodings.h:168-170 | Spaces are the six ASCII white-space characters |
| `Base58.DecodeEncoded` | src/base58.cpp:38-125 | Decoding undoes encoding for every byte string, leading zeroes included |
| `Base58.EncodeDecoded` | src/base58.cpp:38-125 | Encoding undoes decoding for every accepted word |
| `Base58.EncodeFits` | src/base58.cpp:96-110 | The buffer of size * 138 / 100 + 1 digits always suffices |
| `Base58.DecodeFits` | src/base58.cpp:51-67 | The buffer of size * 733 / 1000 + 1 bytes always suffices |
| `Base58.EncodeBase58` | src/base58.cpp:87-125 | The digits of the number in base 58 without padding, after a 1 for every leading zero byte |
| `Base58.ReadOut` | src/base58.cpp:114-124 | The buffer is translated without leading zero digits |
| `Base58.Translate` | src/base58.cpp:118-123 | Digit by digit |
| `Base58.DecodeBase58` | src/base58.cpp:38-133 | Succeeds exactly on one word of the alphabet surrounded by spaces whose decoding is within the limit, and gives that decoding; a string with an embedded null is refused |
| `Base58.DecodeWord` | src/base58.cpp:43-84 | The part after the leading spaces |
| `Base58.DecodeOfEncode` | src/base58.cpp:38-133 | A byte string comes back from its encoding if and only if it is within the limit or empty |
| `Base58.EncodeOfDecode` | src/base58.cpp:38-133 | An accepted string without spaces is the encoding of its result, so encodings are unique |
| `Base58.SpacesAround` | src/base58.cpp:40-84 | Spaces around a word change nothing |
| `Base58.EncodeBase58Check` | src/base58.cpp:135-142 | The encoding of the payload followed by its checksum |
| `Base58.DecodeBase58Check` | src/base58.cpp:144-167 | Gives the payload exactly if its checksum is right and it is within the limit |
| `Base58.CheckRoundTrip` | src/base58.cpp:135-167 | Every payload within the limit comes back |
| `Base58.CheckAccepts` | src/base58.cpp:144-167 | Only encodings of a payload with its checksum are accepted |
| `Bech32.GeneratorLinear` | src/bech32.cpp:130-216 | The generator terms are linear over the field of two elements |
| `Bech32.StepLinear` | src/bech32.cpp:130-216 | So is one step of the checksum |
| `Bech32.StepKeepsNonzero` | src/bech32.cpp:130-216 | A step loses no state |
| `Bech32.StepAppends` | src/bech32.cpp:130-216 | Below six coefficients a step only appends |
| `Bech32.RunLinear` | src/bech32.cpp:130-216 | The checksum of a list is linear |
| `Bech32.StatesStayApart` | src/bech32.cpp:130-216 | Different states stay different whatever follows |
| `Bech32.ShortRun` | src/bech32.cpp:130-216 | Up to six values give zero only if all are zero |
| `Bech32.WindowDetected` | src/bech32.cpp:130-216 | Lists that differ only within six consecutive values have different checksums |
| `Bech32.FillHRP` | src/bech32.cpp:312-324 | The loop fills in the expansion that `ExpandIs` describes |
| `Bech32.ExpandIs` | src/bech32.cpp:312-324 | The expansion of n characters below 256 has 2n + 1 values, a zero in the middle; 32 times the i-th value before it plus the i-th after it is the i-th character |
| `Bech32.ExpandInjective` | src/bech32.cpp:312-324 | Different prefixes of such characters have different expansions |
| `Bech32.GroupsPack` | src/bech32.cpp:341-352 | Six groups hold the thirty bits exactly |
| `Bech32.ChecksumExact` | src/bech32.cpp:327-352 | Six values complete a list to a valid one if and only if they are the created checksum |
| `Bech32.CharBack` | src/bech32.cpp:24-36 | The reverse table gives back every value of the alphabet |
| `Bech32.ValueBack` | src/bech32.cpp:24-36 | It accepts no character outside the alphabet, in either case |
| `Bech32.FirstLetters` | src/bech32.cpp:23 | The values 0 to 7 are written qpzry9x8 |
| `Bech32.SecondLetters` | src/bech32.cpp:23 | The values 8 to 15 are written gf2tvdw0 |
| `Bech32.ThirdLetters` | src/bech32.cpp:23 | The values 16 to 23 are written s3jn54kh |
| `Bech32.LastLetters` | src/bech32.cpp:23 | The values 24 to 31 are written ce6mua7l |
| `Bech32.LowerCaseIs` | src/bech32.cpp:281-284 | Only A to Z change, by 32 |
| `Bech32.CheckCharacters` | src/bech32.cpp:287-309 | No error is reported exactly for strings of printable characters in one case |
| `Bech32.PolyModStep` | src/bech32.cpp:130-216 | The conditional generator terms of the loop body are the linear step |
| `Bech32.PolyMod` | src/bech32.cpp:130-216 | The steps over the whole list |
| `Bech32.CreateChecksum` | src/bech32.cpp:341-352 | The checksum that makes the list valid for the encoding |
| `Bech32.Encode` | src/bech32.cpp:357-370 | Prefix, separator, and the characters of values and checksum |
| `Bech32.FindLastOne` | src/bech32.cpp:376 | The last separator |
| `Bech32.Decode` | src/bech32.cpp:373-397 | Accepts exactly strings within 90 characters, in one case, with a nonempty prefix, at least six values and a valid checksum, and gives their parts |
| `Bech32.RoundTrip` | src/bech32.cpp:357-397 | An encoding decodes to what was encoded if and only if the prefix is nonempty and printable and the length is within 90 |
| `Bech32.OverlongNotDecoded` | src/bech32.cpp:357-397 | A concrete failing input: 83 zero values under the prefix "a" are encoded to 91 characters and not decoded to themselves |
| `Bech32.AcceptsOnlyEncodings` | src/bech32.cpp:357-397 | Every accepted string is, up to case, the encoding of what it decodes to |
| `Bech32.ChecksumDetectsWindow` | src/bech32.cpp:327-338 | No two accepted lists of one encoding differ, in however many values, only within six consecutive ones |
| `Gf1024.TimesIsMul` | src/bech32.cpp:37-115 | Multiplying n times by e, as the tables are built, is multiplying by one element of the field of 1024 |
| `Gf1024.FullCycle` | src/bech32.cpp:37-45 | After 1023 multiplications by e every element is back |
| `Gf1024.FixedByPart` | src/bech32.cpp:167-168 | An element that comes back after fewer would come back after 341, 93 or 33 |
| `Gf1024.Primitive` | src/bech32.cpp:37-45 | e is primitive: no nonzero element comes back before 1023 multiplications |
| `Bech32Errors.GeneratorRoots` | src/bech32.cpp:172-175 | The generator and all its multiples vanish at the powers 997, 998 and 999 of e, the constants in the code included |
| `Bech32Errors.StepAt` | src/bech32.cpp:177-213 | So one step of PolyMod multiplies the value of the state at such a power and adds the new coefficient |
| `Bech32Errors.Eliminate` | src/bech32.cpp:173-175 | The three equations for three errors at different places within 1023 have no solution but zero |
| `Bech32Errors.ThreeErrorsDetected` | src/bech32.cpp:138-142 | Two lists that differ in one, two or three values within a window of 1023 have different checksums |
| `Bech32Errors.ChecksumDetectsThree` | src/bech32.cpp:138-142 | Under one encoding and prefix, no two accepted lists differ in only up to three values within a window of 1023 |
| `Bech32Errors.MistypedIsRefused` | src/bech32.cpp:373-397 | An accepted string with up to three characters after the separator mistyped, none as another separator, is not accepted under the same encoding |
| `Bech32Errors.MistypedPrefixIsRefused` | src/bech32.cpp:373-397 | An accepted string with one character before the separator mistyped, other than in case, and at most one after it, not as another separator, is not accepted under the same encoding |
| `Bech32Errors.ShortestStrings` | src/bech32.cpp:373-397 | The shortest valid strings of BIP 173 and BIP 350, a12uel5l and a1lqfn3a, decode under their own encoding to the prefix "a" and no data |
| `VarInt.ReadWritten` | src/serialize.h:446-484 | Every number within the type comes back, and the rest of the stream is untouched |
| `VarInt.OneEncoding` | src/serialize.h:446-484 | Every number has exactly one encoding |
| `VarInt.Examples` | src/serialize.h:400-405 | The examples of the format, from 0 to 2^32 |
| `VarInt.ReadFits` | src/serialize.h:464-484 | What is read never exceeds the type |
| `VarInt.BufferSuffices` | src/serialize.h:446-462 | The temporary buffer is never overrun |
| `VarInt.WriteVarInt` | src/serialize.h:446-462 | The encoding of the number |
| `VarInt.Emit` | src/serialize.h:459-461 | The buffer goes out in reverse |
| `VarInt.ReadVarInt` | src/serialize.h:464-484 | The number and the rest, or a failure at the end of the stream or on a number too large |
| `Compressor.DecompressCompressed` | src/compressor.cpp:141-192 | Decompression undoes compression on all natural numbers |
| `Compressor.CompressDecompressed` | src/compressor.cpp:141-192 | And the other way round: the coding of amounts is a bijection |
| `Compressor.RoundAmounts` | src/test/compress_tests.cpp:42-47 | The codes of zero, one, a hundredth of a coin, a coin, 50 coins and 21 million coins |
| `Compressor.CompressAmount` | src/compressor.cpp:149-166 | For every 64-bit amount, the code modulo 2^64; for every amount up to the limit on money, the code itself |
| `Compressor.TakeOffZeroes` | src/compressor.cpp:153-157 | The loop takes off up to nine zeroes and counts them |
| `Compressor.Combine` | src/compressor.cpp:158-165 | The two formulas give the code modulo 2^64 although their products may wrap |
| `Compressor.LargestAmountWraps` | src/compressor.cpp:149-166 | The code of the largest 64-bit number does not fit 64 bits |
| `Compressor.DecompressAmount` | src/compressor.cpp:168-192 | The amount modulo 2^64 |
| `Compressor.SpecialBack` | src/compressor.cpp:55-138 | A special form starts with its tag, has the tag's length and decompresses to the script it came from |
| `Compressor.SpecialForward` | src/compressor.cpp:55-138 | And the other way round: whatever a tag and its bytes decompress to is compressed to exactly that tag and those bytes |
| `Compressor.SpecialForms` | src/compressor.cpp:55-83 | The special forms byte by byte, for every hash and key: the tag and the hash, or the tag that holds the parity and the x coordinate |
| `Compressor.PlainForm` | src/compressor.h:65-74 | Any other script is written in full after its length plus six |
| `Compressor.ScriptRoundTrip` | src/compressor.h:54-95 | Reading undoes writing if the script is within the size limit; a longer one comes back as OP_RETURN |
| `Compressor.DataStream.SerScript` | src/compressor.h:64-75 | The special form, or size and bytes |
| `Compressor.DataStream.UnserScript` | src/compressor.h:77-95 | Fails exactly if the stream ends too early; otherwise gives script and rest |
| `Compressor.DataStream.SerAmount` | src/compressor.h:98-103 | The coded amount, for every 64-bit amount, as a variable-length number |
| `Compressor.DataStream.UnserAmount` | src/compressor.h:104-110 | The decoded amount and the rest |
| `Compressor.TxOutRoundTrip` | src/compressor.h:112-118 | An output in range, written and read, comes back unchanged with nothing left over |
| `CuckooCache.BitPackedFlags.constructor` | src/cuckoocache.h:64-71 | All flags start set; there is memory for all of them if and only if the size is at most 2^32 - 8 |
| `CuckooCache.BitPackedFlags.BitSet` | src/cuckoocache.h:94-97 | Sets one flag and no other of the same byte |
| `CuckooCache.BitPackedFlags.BitUnset` | src/cuckoocache.h:105-108 | Clears one flag and no other |
| `CuckooCache.FlagBytesSuffice` | src/cuckoocache.h:64-71 | The bytes computed in 32 bits hold all flags if and only if the size is at most 2^32 - 8; for the sizes above there are none at all |
| `CuckooCache.NoByteForFlags` | src/cuckoocache.h:64-71 | The step at concrete sizes: 0xfffffff8 flags get half a gigabyte, 0xfffffff9 flags none |
| `CuckooCache.Cache.AllowErase` | src/cuckoocache.h:264-267 | The bytes of the flags follow the one slot that becomes overwritable |
| `CuckooCache.Cache.PleaseKeep` | src/cuckoocache.h:273-276 | The bytes of the flags follow the one slot that is to be kept |
| `CuckooCache.MaskIs` | src/cuckoocache.h:94-108 | The flag of a slot is the bit of its byte that the last three bits of the slot number name |
| `CuckooCache.FastRangeFits` | src/util/fastrange.h:19-22 | The place of a hash x among n slots is the largest r with r * 2^32 at most x * n, and it is within the table |
| `CuckooCache.KeptUpdate` | src/cuckoocache.h:399-447 | How the kept elements change when a slot is rewritten |
| `CuckooCache.AgedCounts` | src/cuckoocache.h:303-309 | Aging empties the living epoch, and the dying one becomes as large as the living one was |
| `CuckooCache.MovingSwap` | src/cuckoocache.h:437-442 | Changing places keeps table and hand together the same elements |
| `CuckooCache.MovingPut` | src/cuckoocache.h:418-421 | Putting the element into an overwritable slot loses nothing |
| `CuckooCache.FirstSwap` | src/cuckoocache.h:423-437 | The first displacement is with the second place |
| `CuckooCache.JustPlacedMoves` | src/cuckoocache.h:423-437 | An element just put in is moved out again by the next swap if and only if its place is listed twice in a row with no earlier mention |
| `CuckooCache.JustPlacedMovesBack` | src/cuckoocache.h:423-437 | Two concrete inputs: with its place listed twice at the front the element is moved back, with its place repeated later it is not |
| `CuckooCache.FreePlaceSuffices` | src/cuckoocache.h:414-422 | With one overwritable place an element gets in and none goes out |
| `CuckooCache.EpochFits` | src/cuckoocache.h:346 | The epoch size, with its wrap-around, is at least one slot and never more than 45 per cent |
| `CuckooCache.EpochIsFull` | src/cuckoocache.h:188-196 | An epoch is the promised 45 per cent of the slots if and only if the size is at most 95443717, where 45 times the size still fits 32 bits |
| `CuckooCache.EpochCollapses` | src/cuckoocache.h:346 | The concrete step: 95443717 slots have epochs of 42949672, one slot more and an epoch is a single slot |
| `CuckooCache.EpochsLeaveRoom` | src/cuckoocache.h:188-196 | Two such epochs and their sixteenths are fewer than the slots from 21 slots on |
| `CuckooCache.Cache.constructor` | src/cuckoocache.h:337-350 | An empty cache of at least two slots; it is usable, with a flag for every slot, if and only if the size is at most 2^32 - 8, and its epochs are 45 per cent of the slots if and only if the size is at most 95443717 |
| `CuckooCache.Cache.EpochCheck` | src/cuckoocache.h:287-319 | Counts down; at zero it counts the entries of the epoch and either starts a new one, in which every older entry becomes overwritable, or counts down again by what the epoch has left, but at least by a sixteenth of it and by one; in every case there is room for one more entry |
| `CuckooCache.Cache.CountLiving` | src/cuckoocache.h:294-299 | The living slots that have not been erased |
| `CuckooCache.Cache.Age` | src/cuckoocache.h:303-309 | The dying epoch becomes overwritable, the living one becomes the dying one |
| `CuckooCache.Cache.FindElement` | src/cuckoocache.h:407-412 | The first of the eight places that holds the element |
| `CuckooCache.Cache.FindDiscardable` | src/cuckoocache.h:415-417 | The first of the eight places that may be overwritten |
| `CuckooCache.Cache.Insert` | src/cuckoocache.h:388-447 | The slots end where the chain of displacements leads; the kept elements and the new one are all there but at most one, and none is missing if one of the element's places was overwritable or it was there already |
| `CuckooCache.Cache.PutAt` | src/cuckoocache.h:418-421 | The element in hand takes the slot |
| `CuckooCache.Cache.SwapAt` | src/cuckoocache.h:437-442 | The element in hand and the one in the slot change places, with their epochs |
| `CuckooCache.Cache.Round` | src/cuckoocache.h:413-446 | One round of the loop is one step of the chain |
| `CuckooCache.Cache.Rounds` | src/cuckoocache.h:413-446 | The loop with its depth limit ends where the chain of displacements leads; table and hand together lose nothing |
| `CuckooCache.Cache.Displace` | src/cuckoocache.h:413-446 | The rounds end where the chain leads and drop at most the last element |
| `CuckooCache.Cache.Contains` | src/cuckoocache.h:476-486 | True exactly if one of the element's places holds it, so every kept element is found; erasing makes the first such place overwritable |
| `CuckooCache.Cache.Load` | src/cuckoocache.h:188-196 | The kept elements never exceed two epochs and a sixteenth, and in a cache of more than 20 slots they are fewer than the slots |
| `CuckooCache.Cache.Run` | src/cuckoocache.h:388-486 | Over every run of inserts and lookups, every kept element sits in one of its own eight places, the load stays bounded, and in a cache of more than 20 slots fewer elements than slots are kept |
| `CompactBlocks.PositionsGrow` | src/blockencodings.cpp:61-76 | The positions decoded from the differences strictly grow |
| `CompactBlocks.PartiallyDownloadedBlock.PlacePrefilled` | src/blockencodings.cpp:61-77 | Accepts exactly messages whose prefilled transactions are present and within reach, and puts each at its position |
| `CompactBlocks.PartiallyDownloadedBlock.MapShortIds` | src/blockencodings.cpp:83-105 | The i-th short id is mapped to the i-th free slot without leaving the array; fails exactly on a repeated id or a crowded bucket |
| `CompactBlocks.PartiallyDownloadedBlock.ScanPool` | src/blockencodings.cpp:107-133 | Every slot is as the transactions scanned make it: empty without one of its short id, filled by the only one, empty again from the second on; the scan stops early only when every slot is filled |
| `CompactBlocks.UniqueIsKept` | src/blockencodings.cpp:107-159 | A short id with one candidate in the pool and no different one among the extra transactions keeps it |
| `CompactBlocks.SoleIsKept` | src/blockencodings.cpp:136-159 | A short id with none in the pool and only copies of one extra transaction keeps the first of them |
| `CompactBlocks.SinglesAreKept` | src/blockencodings.cpp:107-165 | So a scan that stops only when every slot is filled loses no single candidate, wherever it stops |
| `CompactBlocks.PartiallyDownloadedBlock.PoolMatch` | src/blockencodings.cpp:113-127 | One match fills or empties the slot of its id only |
| `CompactBlocks.PartiallyDownloadedBlock.ScanExtra` | src/blockencodings.cpp:136-165 | The same for the extra transactions after the pool's: the first of a short id fills a slot that had no candidate, and only a different one empties a filled slot |
| `CompactBlocks.PartiallyDownloadedBlock.ExtraMatch` | src/blockencodings.cpp:139-159 | One match; only a different transaction empties a slot |
| `CompactBlocks.PartiallyDownloadedBlock.FillSlots` | src/blockencodings.cpp:79-165 | All three loops: every slot is as the scanned transactions make it, single candidates are kept, and the counter is the number of slots filled |
| `CompactBlocks.PartiallyDownloadedBlock.InitData` | src/blockencodings.cpp:50-170 | The exact conditions of INVALID and FAILED, and otherwise what is in every slot: the prefilled transactions, and for each short id what the candidates scanned leave; a scan ends early only when all slots are filled |
| `CompactBlocks.PartiallyDownloadedBlock.FillBlock` | src/blockencodings.cpp:180-225 | The k-th missing transaction goes to the k-th empty slot; INVALID exactly for too few or too many, else the status of the block check; cannot be repeated |
| `CompactBlocks.RebuiltIsBlock` | src/blockencodings.cpp:188-196 | Slots with only the block's own transactions and the missing ones in order give the block |
| `CompactBlocks.SlotsAreRight` | src/blockencodings.cpp:107-165 | Without a short-id collision, every filled slot holds the block's own transaction |
| `CompactBlocks.AnnounceDescribes` | src/blockencodings.cpp:20-30 | An announcement gives every slot but the first the short id of the block's transaction there |
| `CompactBlocks.Relay` | src/blockencodings.cpp:20-225 | Announce, match and fill rebuilds exactly the announced block for every pool and extra list without a collision, unless two short ids agree or a bucket is crowded |
| `CompactBlocks.DifferenceFormatter.constructor` | src/blockencodings.h:22-24 | The first difference is from 0 |
| `CompactBlocks.DifferenceFormatter.Ser` | src/blockencodings.h:27-33 | The distance to the last value plus one; fails exactly on a value that does not grow or the largest |
| `CompactBlocks.DifferenceFormatter.Unser` | src/blockencodings.h:34-41 | Adds the distance; fails exactly when the sum leaves 64 bits or the type |
| `CompactBlocks.DifferenceFormatter.SerAll` | src/blockencodings.h:22-54 | Succeeds exactly on strictly rising lists |
| `CompactBlocks.DifferenceFormatter.UnserAll` | src/blockencodings.h:22-54 | Gives the rising list with these distances, and fails only if there is none within the type, the widest type included |
| `CompactBlocks.DifferencesInjective` | src/blockencodings.h:22-54 | Rising lists are told apart by their distances |
| `CompactBlocks.TooFar` | src/blockencodings.h:34-41 | A distance past the limit belongs to no list within it |

## Left out

- Coins: EmplaceCoinInternalDANGER, whose callers promise that no level has the coin.
- Coins: AccessCoin, HaveInputs and HaveCoinInCache only read.
- Coins.CoinsViewDB.WriteBatches: the database is taken to write a batch whole or not at all, and an error it returns is not modelled; where the batches are cut, which depends on sizes in bytes, is arbitrary.
- Coins.CoinsViewDB.WriteThrough: repeats the same entries; the node itself replays the blocks between the two tips of the marker, which is not modelled.
- Coins.CoinsViewCache.SanityCheck: the memory of a script is taken as its size, not its allocated capacity.
- HeadersSync.HeadersSyncState.ProcessNextHeaders: takes the messages as internally connected, as its callers guarantee, and PermittedDifficultyTransition as an arbitrary predicate; the commitment limit, an estimate from the clock, is a parameter.
- HeadersSync.HeadersSyncState.constructor: the random commitment offset is a parameter below the period.
- CheckQueue.WaitMustFinish: counts schedules in which only notified threads wake; how many spurious wake-ups a system adds is not bounded by the code.
- CheckQueue.EveryRunIsRight: one controller at a time, as the control mutex ensures, and checks with a fixed outcome; a notification belongs to the critical section before it, and one that reaches a thread that began to wait later counts as spurious.
- AddrMan.AddrManImpl.AddSingle: the stochastic test is a parameter, without its probability.
- AddrMan.AddrManImpl.Good: times are positive; a time of zero would make a tried entry that the consistency check refuses.
- AddrMan.AddrManImpl.GetAddr: that the sample is uniform is not stated.
- AddrMan: Select_, GetChance, GetEntries_, FindAddressEntry_ and Size_ only read the tables.
- AddrManDisk.Unserialize: the file is a record of its fields; the bytes of an address, the key and the older address formats are not modelled, nor a file that ends early or claims more buckets than it has.
- AddrManDisk.RunSaveAndLoad: takes routable addresses as valid, which is how the sources define routable, and the same key, hash functions and address map on both sides.
- ArithUint256: the bitwise operators, the conversions to double and hexadecimal, and the 64-bit overloads, which only add easy members.
- Chain.BlockIndex.constructor: the total work is an unbounded number, and predecessor and height are set once, at creation, as AddToBlockIndex does.
- Chain.BlockManager.AddToBlockIndex: requires a header not to name its own hash as its predecessor.
- Chain: GetBlockProofEquivalentTime, loading the index from disk, block status and sequence numbers.
- Base58.EncodeBase58Check: the checksum is an arbitrary function to four bytes.
- Bech32: LocateErrors with its logarithm tables and the syndrome, which only suggests where a refused string may be wrong.
- Bech32Errors.MistypedPrefixIsRefused: two or three wrong characters in the prefix change four or six values of the expansion, which the generator does not promise to detect.
- Bech32Errors.ChecksumDetectsThree: the further figure of the comment, four errors within 89 characters, rests on an exhaustive search for the generator and is not proved; an error that turns a character into a separator is not covered.
- Compressor.SpecialBack: the curve operations are parameters, taken to invert each other on valid keys.
- CuckooCache.Cache.Contains: runs alone; the concurrent erasures that the relaxed atomics allow are not modelled.
- CuckooCache.Cache.constructor: the depth limit, which the code takes from a float logarithm, is a parameter of at least one.
- CompactBlocks.PartiallyDownloadedBlock.InitData: takes the count of transactions as at most 65535, as reading a message guarantees (which makes the check against the block weight void), and the bucket-size test as an arbitrary predicate of the ids so far; the count of extra transactions, kept for the log, is specified for the loop that changes it only.
- CompactBlocks.Relay: short ids, witness hashes and the block check are parameters; that collisions are rare is not stated.
- Validation of blocks and transactions, script execution, the mempool, peer handling, the wallet, the hash-based signatures and the proof-of-useful-work rules of this fork.
