# RivetCache, modelled and proved in Dafny

RivetCache is a tiered cache for the key/value state of inference runtimes. This project models its core in
Dafny 4.11 and proves what that core is for:

* **Reuse.** Block identities, the longest-common-substring search, alignment to blocks, the greedy multi-span
  planner, halo merging, and the relocated restore; end to end, every query position that a plan restores received
  the state of the same token, by exactly one write (`Apply.ReuseQuery`), and that state is what a runtime gave for
  those tokens (`Capture.ReuseCaptured`). A plan exists exactly if the greedy spans reach the coverage, each of them the
  longest that any gap offers (`Planner.PickIsLongest`), and it is applied unless a block is missing or a call fails.
* **Tiers.** The engine over several tiers with promotion, prefetch, expiry, pinning and write-through. Reads and
  prefetches change nothing that any reader can see, even when a tier call fails midway and however their tier calls
  interleave (`InterleavedReads.ReadsKeepViews`), and a get in such an interleaving answers with what readers saw when
  it began under an exactly stated condition (`InterleavedReads.AnswersFirstViewIff`). For a copy or a removal that a
  put, a move or an invalidation has overtaken, the exact condition under which it stays invisible.
* **Cache.** The two-level context cache with LRU, pins, expiry and byte accounting: which entries are evicted is
  determined exactly, byte counts are right, index and store lose the same entries, a hit is always a value that was
  written under that key, and a value is read back at any time after its write under an exactly stated condition.
* **Protocols.** The job pipeline and the device tier as interleavings of atomic steps, and the tenant quotas as
  sequences of locked operations; the results hold for every run. A get from the device tier returns what the last put
  before its lookup was called with (`Device.GetReturnsLastPut`); jobs are taken up in order and judged once.
* **Calendar, codecs and parsers.** Civil dates and timestamps, UTF-8, run-length coding, the codec frame, the tier
  envelope, and the RESP language, each with its inverse or its exact acceptance condition.

`dafny verify dfyconfig.toml` checks everything.

How the model relates to the code:

* A loop that updates variables is a method with invariants, an object with mutable state a class, a protocol whose
  lock is released between steps a transition function over a state datatype with runs as sequences of actions.
* Integers are unbounded; where the code saturates, checks or truncates at a machine width the model does so
  explicitly (`SatAdd`, `SatSub`, `SatAdd32`).
* The clock is an input that never goes back. Calls into tiers, stores and the runtime may fail without effect: the
  engine and the runtime count their failed calls in a ghost field, so that contracts can say that an operation
  fails exactly if a call did; the engine's put, the layered store and the cache are told by an argument which calls
  fail.
* SHA-256 is a function from byte strings to digests. It is taken to be collision-free only where a lemma says so,
  and only for the two encodings it compares.
* `io::ErrorKind` is kept; error messages are not.
* HashMap iteration order is arbitrary.

What the proofs turned up about the code:

* `validate_record` computes the expected block start with a saturating `u32` addition (src/reuse.rs:227-264), so a
  record of more than `u32::MAX` tokens may repeat a start, and alignment then drops blocks of the raw match.
  `Segments.AlignmentKeepsEveryBlock` shows that alignment keeps every block exactly when no block but the last
  runs past `u32::MAX`, and `Segments.OverrunWitness` gives a record that fails.
* A quota of exactly `u64::MAX` defeats the saturating admission test (src/control.rs:152-162).
  `Quota.BalancedIffNarrow` shows that every run keeps the books exactly when no storage limit has that value.
* A failed write-through removes the keys it wrote and does not restore the entries it overwrote
  (src/kv.rs:400-404). The removals may fail in turn, and the code ignores that. `Engine.FailedPutForgets` makes the
  loss happen. `Engine.UndonePutSafeIff` shows that, as long as all removals work, readers keep their view wherever the
  write fails exactly if, beforehand, no tier has a live copy of the key or the last tier has one and all live copies
  are equal. `Engine.FailedPutSafeIff` shows that, whichever removals fail too, they keep it exactly if in addition the
  new entry leaves no trace: there is one tier only, or the entry is dead already, or it is what readers see already.
* The engine holds no lock across tiers, so a promotion can write back an entry that a put has replaced or an
  invalidation has removed since it was read (src/kv.rs:442-479). `Engine.RacingPromotion` is that interleaving, and
  `Engine.CopyInvisibleIff` the condition on the tiers at the moment of the copy. In the same way the removal of an
  entry that was seen expired can remove a newer one that a put has just written (src/kv.rs:451-456):
  `Engine.RacingDrop`, and the condition `Engine.DropInvisibleIff`.
* `completed` can be ahead of `submitted` for a moment (src/async_runtime.rs:499-502 and 178).
  `AsyncPipeline.CompletedCanLead` exhibits it, and `AsyncPipeline.FinishedWithinSubmittedIff` says exactly when the
  finished jobs are within the submitted ones.
* A put that is too large for the memory level leaves an older memory entry of the same key in place, and reads keep
  returning that (src/lib.rs:548-558). `ContextCaches.StaleRead` is the example, and
  `ContextCaches.ReadAfterWriteIff` the condition, on the state before the write, under which a read after it returns
  the value written.
* A get fixes its time once, at its start (src/kv.rs:443), so another read can remove an entry that dies while the get
  is under way, and the get then returns an entry from a later tier that nobody saw when it began, or none.
  `InterleavedReads.AnswersFirstViewIff` shows that a get answers with what readers saw when it began, in all
  interleavings of reads, exactly if that entry outlives the get.

## Model

| member | source | states |
|---|---|---|
| `BlockKeys.FromPrefix` | src/kv.rs:35-58 | fed token by token, the key carries its range unchanged and the digest of the length-prefixed encoding of the whole prefix |
| `BlockKeys.ComputeBlockKeys` | src/kv.rs:792-837 | fails exactly on unacceptable requests and otherwise returns the specified key for every block |
| `BlockKeys.BlocksTile` | src/kv.rs:819-836 | blocks start at 0, follow one another without gap or overlap, all but the last are full, they end with the sequence, and each carries its number and the model, layers and layout of the request |
| `BlockKeys.TilesAreContiguous` | src/kv.rs:819-836 | tiling blocks are contiguous in the sense that record validation and restore demand |
| `BlockKeys.PrefixEncodingInjective` | src/kv.rs:35-58 | the bytes hashed for a prefix determine the prefix |
| `BlockKeys.SharedKeyIffSharedPrefix` | src/kv.rs:35-58 | two requests with the same model, layers, layout and block size share their i-th key exactly if the block ends coincide and the tokens agree up to there |
| `BlockKeys.CacheKeyEncodingInjective` | src/kv.rs:60-72 | the bytes hashed for a cache key determine the block key |
| `BlockKeys.ContextKeyEncodingInjective` | src/policy.rs:36-65 | the bytes hashed for a context key determine namespace, model and payload |
| `ContextKeys.ValidKeyIff` | src/policy.rs:45-59 | the keys that validation accepts are exactly the hexadecimal forms of 32-byte digests, each of one digest only |
| `ContextKeys.KeysTellContextsApart` | src/policy.rs:36-43 | every key made is valid, and two contexts share one exactly if namespace, model and payload agree |
| `Prelude.LivesUntilExpiry` | src/lib.rs:500-506 | an entry is alive exactly while fewer seconds than its lifetime, at least one, have passed, up to the last second of the clock; a zero lifetime never ends |
| `LongestCommonSubstring.FillRow` | src/reuse.rs:163-181 | one row of the two-row table holds the common suffix lengths, and the running best is replaced by a strictly larger cell only |
| `LongestCommonSubstring.ScannedIsBest` | src/reuse.rs:165-178 | that running best is the first of the largest cells visited |
| `LongestCommonSubstring.FindLongest` | src/reuse.rs:155-185 | the result is a common substring at the reported places, none is longer, it is the first such, and there is none exactly if no token is shared |
| `LongestCommonSubstring.SuffixLenIsLongest` | src/reuse.rs:165-176 | the recurrence of the table computes the longest common suffix of two prefixes |
| `LongestCommonSubstring.FirstLongestUnique` | src/reuse.rs:155-185 | the specification determines the match |
| `Segments.ValidateRecord` | src/reuse.rs:227-264 | accepts exactly the valid records, saturating start included |
| `Segments.AlignToBlocks` | src/reuse.rs:187-225 | the span is the longest contiguous run of whole blocks from the first one inside the match, moved to the query |
| `Segments.AlignmentKeepsEveryBlock` | src/reuse.rs:187-264 | the contiguity break drops no block of any match exactly if no block but the last runs past u32::MAX |
| `Segments.DroppedBlock` | src/reuse.rs:187-225 | on a record with such an overrun some match loses a block |
| `Segments.OverrunWitness` | src/reuse.rs:227-264 | a concrete valid record with an overrun |
| `Segments.OwnKeysAreValid` | src/reuse.rs:227-264 | a record carrying its own block keys is valid and has no overrun |
| `Segments.AlignmentLosesLittle` | src/reuse.rs:187-225 | with block size b, a match of L >= 2b-1 tokens yields a span of at least L-2(b-1) tokens |
| `SegmentIndexes.OfferOf` | src/reuse.rs:79-92 | a record offers its longest match, aligned, if that is long enough |
| `SegmentIndexes.CandidateBacks` | src/reuse.rs:79-105 | an offered span names contiguous whole blocks of the record that carry exactly the query's tokens |
| `SegmentIndexes.SegmentIndex.Register` | src/reuse.rs:34-55 | invalid records are refused; otherwise the one record with the same model and tokens, if any, goes, the others keep their order, and the new one comes last |
| `SegmentIndexes.SegmentIndex.BestSegment` | src/reuse.rs:57-107 | the best offer over all records of the model, and none exactly if no record offers one |
| `SegmentIndexes.BestIsLongest` | src/reuse.rs:94-101 | no record of the model offers a longer span than the best, none of its length begins earlier in the query, and no older record offers one that agrees in both |
| `SegmentIndexes.BestExists` | src/reuse.rs:57-107 | there is always a best, or no offer at all |
| `SegmentIndexes.BestOfUnique` | src/reuse.rs:57-107 | that specification determines the span |
| `SegmentIndexes.TooShort` | src/reuse.rs:57-107 | a query shorter than the minimum has no span |
| `Ranges.MergeSorted` | src/quality.rs:208-223 | merging sorted ranges keeps the union and leaves them strictly separated |
| `Ranges.MergeRanges` | src/quality.rs:208-223 | for any ranges: union unchanged; result sorted, non-empty ranges, strictly separated |
| `Ranges.BoundaryRanges` | src/quality.rs:178-206 | the recompute ranges denote exactly the positions of some span within the halo of one of its edges, inside the query |
| `Planner.ChooseSpan` | src/quality.rs:69-94 | the best span over all remaining ranges, or none exactly if no range has one |
| `Planner.Cut` | src/quality.rs:98-105 | every position is in as many ranges as before, save those of the span, which are in one less, and the ranges shrink by exactly the span's length |
| `Planner.RoundTiles` | src/quality.rs:66-107 | ranges and spans together cover each query position exactly once, before and after a round |
| `Planner.GapIsRange` | src/quality.rs:66-107 | every maximal gap between the spans is one of the remaining ranges |
| `Planner.RangeIsGap` | src/quality.rs:66-107 | every remaining range is a maximal gap |
| `Planner.TakeSpans` | src/quality.rs:66-107 | each span taken is a best one for the gaps left before it, at most the allowed number are taken, and fewer only if no gap offers one; the ranges shrink every round |
| `Planner.PickIsLongest` | src/quality.rs:83-94 | nothing that any record offers in any gap is longer than the span taken next, and nothing of its length begins earlier |
| `Planner.GreedyOrderUnique` | src/quality.rs:66-107 | records, query and policy determine the spans and the order in which they are taken |
| `Planner.TilesDisjoint` | src/quality.rs:109-112 | sorted spans of a tiling are disjoint and ascending |
| `Planner.PlanQualityReuse` | src/quality.rs:55-134 | a plan exists exactly if the greedy spans reach the coverage; its spans are sorted, disjoint, inside the query, long enough and backed by registered records; totals, coverage and recompute ranges are right |
| `Planner.CoverageIsShare` | src/quality.rs:116-120 | coverage is the exact per-mille share, 1000 only for the whole query, as long as the product fits in 64 bits; beyond, it is that of the saturated product and below 1000 |
| `Engine.KvEngine.TransferEntry` | src/kv.rs:695-732 | with the copying transport the destination holds the same entry and nothing else changes; a failure changes nothing |
| `Engine.KvEngine.Promote` | src/kv.rs:458-470 | copying towards the front leaves every view as it was at each step, even if a copy fails |
| `Engine.KvEngine.Get` | src/kv.rs:442-479 | returns the first unexpired entry, fails exactly if a tier call failed, and leaves every key's view unchanged from now on in either case; the tiers before the hit lose the dead entry, or with promotion get the hit, and nothing else changes |
| `Engine.KvEngine.FindSource` | src/kv.rs:655-674 | finds the first unexpired copy outside the destination, without changing any view |
| `Engine.KvEngine.PrefetchOne` | src/kv.rs:646-686 | the destination ends up with a live copy exactly if some tier had one, its own or else what readers see, without changing any view |
| `Engine.KvEngine.PrefetchWorker` | src/kv.rs:633-688 | populated counts exactly the keys a reader would have seen when each was looked up and missed the others; no view changes; only a bad destination or a failed call is an error |
| `Engine.KvEngine.MoveBlock` | src/kv.rs:481-505 | a move puts the live entry at the destination and removes the source only then; no failure loses it; without a live entry it changes no view and leaves nothing of the key at the source |
| `Engine.KvEngine.SetPinned` | src/kv.rs:562-580 | in every tier a live copy gets the flag and a dead one goes, nothing else changes, and the answer tells whether a reader could see one |
| `Engine.KvEngine.Put` | src/kv.rs:379-413 | a write reaches the first tier or all tiers, and readers see it exactly for its lifetime and then what the other tiers show; it fails exactly if one of its writes does, and a failed write-through leaves exactly the state rolled back from the first failing tier |
| `Engine.KvEngine.Invalidate` | src/kv.rs:553-560 | success makes the key unseen at all times; other keys' views never change |
| `Engine.DropInvisible` | src/kv.rs:451-456 | removing an expired entry changes no view |
| `Engine.DropInvisibleIff` | src/kv.rs:451-456 | whatever other operations left in the tiers, a removal is invisible from now on exactly if tiers before it always hide it or the tiers behind show the same at the first moment they do not |
| `Engine.RacingDrop` | src/kv.rs:451-456 | the interleaving in which the removal of an expired entry loses the live one put in between |
| `Engine.CopyInvisible` | src/kv.rs:458-470 | copying the leading entry to a tier without a live one changes no view |
| `Engine.CopyInvisibleIff` | src/kv.rs:458-470 | whatever other operations left in the tiers, a copy is invisible from now on exactly if tiers before it always hide it or it changes nothing at the first moment they do not |
| `Engine.RacingPromotion` | src/kv.rs:442-479 | the interleaving in which a promotion undoes a put, or brings an invalidated key back |
| `Engine.PinnedViews` | src/kv.rs:562-580 | pinning changes the flag in what readers see and nothing else |
| `Engine.WrittenIsSeen` | src/kv.rs:379-413 | after a write every reader sees the new entry until it expires |
| `Engine.FailedPutView` | src/kv.rs:400-404 | exactly what every reader sees after a rollback, with any removals failing |
| `Engine.FailedPutKeepsViewIff` | src/kv.rs:400-404 | a rollback at tier m whose removals all work keeps the view exactly if the tiers from m on show it already |
| `Engine.UndonePutSafeIff` | src/kv.rs:400-404 | when all removals work, every failure point keeps the view exactly if no tier has a live copy, or the last one has and all live copies are equal |
| `Engine.FailedPutSafeIff` | src/kv.rs:400-404 | every failure point with every set of failing removals keeps the view exactly if that holds and the new entry leaves no trace: one tier, or dead already, or seen already |
| `Engine.FailedPutForgets` | src/kv.rs:379-413 | a put whose second write fails loses an entry that only the first tier held |
| `InterleavedReads.InvStep` | src/kv.rs:442-479 | each tier call of any read in progress keeps the invariant: a live original stays where it is, every other entry is dead or what readers see anyway |
| `InterleavedReads.RunInv` | src/kv.rs:633-688 | the invariant holds in every interleaving of gets and prefetches, failing ones included |
| `InterleavedReads.ReadsKeepViews` | src/kv.rs:442-688 | no such interleaving changes what any reader sees, for any key at any time from now on |
| `InterleavedReads.AnswerIsView` | src/kv.rs:442-479 | a get never answers with an entry that was dead when it began; its answer is what every reader sees of the key before and after, for as long as the entry lives; no answer means that nobody sees one |
| `InterleavedReads.AnswersFirstViewIff` | src/kv.rs:442-479 | every get that begins and answers at given times returns what readers saw when it began, in all interleavings, exactly if that entry is still alive at the answer or there was none |
| `InterleavedReads.AnswerWasPromoted` | src/kv.rs:464-470 | a get that answers with an entry found in some tier has, if reads promote, written it to every tier before |
| `InterleavedReads.FetchedIsThere` | src/kv.rs:646-686 | the step that ends a prefetch leaves a copy in its tier that was alive when it began, or nothing is alive in any tier |
| `InterleavedReads.CallsEnd` | src/kv.rs:442-688 | an unfinished read can always take a step, and each of its steps brings it nearer to an answer |
| `InterleavedReads.CallBegan` | src/kv.rs:442-688 | what a read is at work on and answers is what it was called for, by the clock of its start |
| `Apply.ValidateRestoreBlocks` | src/llama_cpp.rs:288-311 | accepts exactly non-empty, contiguous blocks of one model, layer range and layout within 32 bits |
| `Apply.RestoreRelocated` | src/llama_cpp.rs:249-286 | writes each block at its offset from the target, in order; succeeds exactly if the blocks are restorable, fit and no write fails; blocks that are not restorable cause no write |
| `Apply.LoadPlan` | src/quality.rs:142-162 | returns blocks the engine held for every key of every span, or nothing if one was missing; only reads |
| `Apply.RestorePlan` | src/quality.rs:163-170 | writes are good, inside the spans and never overlap; after success every position of every span is written |
| `Apply.BackedIsPlaceable` | src/llama_cpp.rs:249-311 | spans of valid records pass the restore checks |
| `Apply.ApplyQualityReuse` | src/quality.rs:136-176 | true means every span position written once and the recompute ranges handed over; false means a block was missing and nothing was written; errors come only from bad arguments, failed calls or unplaceable spans |
| `Apply.GoodWriteCarriesTokens` | src/quality.rs:136-176 | with own block keys, a written block is named by a token prefix whose tail is the query's tokens at that place |
| `Apply.WrittenOnce` | src/quality.rs:163-170 | a position that is written is written by one write only |
| `Apply.ReuseQuery` | src/quality.rs:55-176 | end to end: the plan is the greedy one, if that reaches the coverage; without a plan nothing is written; with one, and without a missing block or a failed call, the answer is true and every position of every span is written; every write carries state for exactly the query's tokens there, and writes never overlap |
| `Capture.CaptureFrom` | src/kv.rs:507-535 | blocks that are not those of the request are refused before anything is written; after a success the first tier holds them all, with the pin and the lifetime asked for; the engine never holds what was not captured |
| `Capture.StaysCaptured` | src/kv.rs:442-505 | get, prefetch, move, pin and invalidate keep that |
| `Capture.RestoredWasCaptured` | src/quality.rs:136-176 | a slice written by a reuse carries bytes captured for a block with exactly the query's tokens there, the same model, layers and layout |
| `Capture.ReuseCaptured` | src/quality.rs:55-176 | end to end from capture: the plan and the answer are as for the reuse of a query, and every slice written, even in a failed attempt, carries bytes captured for those tokens |
| `Eviction.ChooseVictim` | src/policy.rs:85-93 | the first of the least recently used candidates |
| `Eviction.Candidates` | src/lib.rs:708-717 | exactly the unpinned entries |
| `Eviction.Shrink` | src/lib.rs:704-734 | the memory loop evicts least recently used unpinned entries up to the first point where the rest fits |
| `Eviction.TrimStep` | src/lib.rs:704-734 | one eviction keeps that property |
| `Eviction.EvictionUnique` | src/lib.rs:704-734 | with distinct access times the victims are determined by the entries |
| `Eviction.NewestSurvivesIff` | src/lib.rs:704-734 | a new entry survives exactly if it is pinned or fits beside the pinned ones |
| `CacheLevels.TimesDistinct` | src/lib.rs:787-790 | memory entries have distinct access times until the tick is exhausted |
| `CacheLevels.RemoveDiskRecord` | src/lib.rs:766-785 | the index record always goes; bytes and store entry go only if the removal works |
| `CacheLevels.ShrinkDisk` | src/lib.rs:736-764 | persistent victims are the least recently used unpinned ones; on success the store has lost exactly what the index has lost |
| `CacheLevels.InsertMemory` | src/lib.rs:677-702 | replaces the entry, with a new access time and the right byte count |
| `CacheLevels.Admit` | src/lib.rs:548-558 | the memory level takes what it can hold at the cost of the required victims; the value stays exactly if it is pinned or fits beside the pinned ones |
| `CacheLevels.EvictMemory` | src/lib.rs:704-734 | memory is within capacity or all pinned, by the required victims |
| `CacheLevels.EvictDisk` | src/lib.rs:736-764 | the persistent level likewise; the count is exact until a removal fails and never short, the index stays in step with the store, and knows every entry of it until a removal fails |
| `CacheLevels.Lookup` | src/lib.rs:396-461 | the persistent half of a read: the entry an unexpired record describes, which is renewed; a miss leaves nothing of the key at the level and is due to expiry, damage or a foreign change; an error is the store's own |
| `CacheLevels.Persist` | src/lib.rs:514-546 | the persistent half of a write: an expired record goes, an absent one is stored at the cost of the required victims, which go from the store too, and while its record is there the store holds exactly the entry; otherwise nothing changes |
| `CacheLevels.Index` | src/lib.rs:311-332 | the index holds exactly the unexpired stored entries, each with the size, expiry, pin and access time of the store, and the store keeps no other; the tick goes on from the latest access; a failed removal is an error |
| `ContextCaches.ContextCache.Open` | src/lib.rs:289-348 | the index holds the unexpired stored entries, less the required victims, and the store holds exactly the indexed keys |
| `ContextCaches.ContextCache.Get` | src/lib.rs:361-486 | a hit was written under the key since its last invalidation or clear and its record is unexpired; a persistent hit moves up into memory; if only one value was written it is the plain map's; unless someone else changes the store, a live record is missed only if the store reports damage, and other failures of the store are passed on |
| `ContextCaches.ContextCache.Put` | src/lib.rs:488-576 | a success takes the value to both levels, each exactly as far as it goes and alive there exactly for its lifetime; a failure leaves memory alone and happens only if a store call fails and no live record exists |
| `ContextCaches.ContextCache.Invalidate` | src/lib.rs:610-628 | success leaves nothing of the key at either level; failure changes nothing |
| `ContextCaches.ContextCache.Clear` | src/lib.rs:645-659 | success leaves nothing at all, and counts that are exact again; failure changes nothing |
| `ContextCaches.ReadAfterWriteIff` | src/lib.rs:361-576 | a fault-free read at any time after a successful write returns the value exactly if it stays in memory and lives, or memory cannot hold it and has it already, or memory has nothing live and the persistent level ends up with it |
| `ContextCaches.WriteThenRead` | src/lib.rs:361-576 | the same for put followed by get on a cache, with the lifetime in seconds |
| `ContextCaches.StaleRead` | src/lib.rs:548-558 | a larger second value for a key leaves reads at the first |
| `Layered.MergedMeans` | src/store.rs:181-215 | the index knows a key exactly if a backend holds it, with the saturated total of what the backends store, and the latest access |
| `Layered.MergeSnapshot` | src/store.rs:188-208 | merging one snapshot, in any order, adds its records and fails exactly on a metadata mismatch |
| `Layered.LayeredStore.LoadIndex` | src/store.rs:181-215 | the index is the merge of all backends, and exists exactly if all copies agree on expiry and pin and no load fails |
| `Layered.LayeredStore.Get` | src/store.rs:217-224 | the entry of the first backend that has one, where it becomes the one most recently used; no entry changes |
| `Layered.LayeredStore.CheckCopies` | src/store.rs:227-236 | passes exactly if every existing copy equals the entry |
| `Layered.InsertedMeans` | src/store.rs:118-137 | a backend takes an entry only under a key that it does not have, and reports the size of what it has |
| `Layered.RollBack` | src/store.rs:249-251 | an inserted copy stays exactly where its removal fails |
| `Layered.WriteAll` | src/store.rs:238-261 | writes everywhere or undoes at the first failure |
| `Layered.LayeredStore.PutIfAbsent` | src/store.rs:226-262 | all or nothing: success exactly if all copies agree and no call fails, then every backend holds the entry and the reported size is the merged index's; otherwise every backend is as before, save where an undoing removal failed |
| `Layered.LayeredStore.Remove` | src/store.rs:264-277 | every backend is tried, and success means the key is gone everywhere |
| `AsyncPipeline.InvStep` | src/async_runtime.rs:150-199 | every step of a submitter, worker or taker keeps the invariant tying job table, queue and counters to the calls in progress |
| `AsyncPipeline.RunInv` | src/async_runtime.rs:456-590 | the invariant holds in every run |
| `AsyncPipeline.PhaseStep` | src/async_runtime.rs:150-199 | a job's phase changes only along pending, running, one verdict, taken |
| `AsyncPipeline.JobsMoveForward` | src/async_runtime.rs:366-387 | over any run a job never goes back and a verdict never changes |
| `AsyncPipeline.OneVerdict` | src/async_runtime.rs:534-590 | a job gets its verdict at most once |
| `AsyncPipeline.QuiescentMeansDone` | src/async_runtime.rs:426-445 | when inflight reads zero, every id a submit has returned is terminal or taken |
| `AsyncPipeline.ReturnedIsSomewhere` | src/async_runtime.rs:456-519 | a returned id is queued, with a worker, terminal or taken: none is lost |
| `AsyncPipeline.RefusedLeavesNothing` | src/async_runtime.rs:487-531 | a refused job is never queued, never judged, and forgotten in the end |
| `AsyncPipeline.VerdictIsStored` | src/async_runtime.rs:534-590 | a job's verdict is the one its worker stored, until it is taken |
| `AsyncPipeline.TakeGetsVerdict` | src/async_runtime.rs:366-387 | a take removes a settled job and changes nothing otherwise |
| `AsyncPipeline.TakenOnce` | src/async_runtime.rs:366-387 | no verdict is given out twice |
| `AsyncPipeline.NoOvertaking` | src/async_runtime.rs:493-497 | while a job waits, every job sent after it waits behind it |
| `AsyncPipeline.QueueBounded` | src/async_runtime.rs:243-243 | the queue never holds more than its capacity |
| `AsyncPipeline.NothingSentAfterShutdown` | src/async_runtime.rs:486-492 | nothing is sent after a shutdown |
| `AsyncPipeline.JobsEnd` | src/async_runtime.rs:456-590 | no job is stuck: each of its threads can take its next step, and each step brings the job nearer to its end |
| `AsyncPipeline.SubmittedAgainstFinished` | src/async_runtime.rs:159-199 | in every run, submitted plus the submits past their send equals completed plus failed plus the jobs handed over and not yet counted |
| `AsyncPipeline.FinishedWithinSubmittedIff` | src/async_runtime.rs:499-502 | finished jobs are within the submitted ones exactly if no more submitters than jobs lag behind |
| `AsyncPipeline.CompletedCanLead` | src/async_runtime.rs:499-502 | a run in which completed exceeds submitted |
| `Device.InvStep` | src/device.rs:288-366 | every step of any call keeps the ownership invariant |
| `Device.RunInv` | src/device.rs:53-110 | the invariant holds in every interleaving |
| `Device.LiveBuffers` | src/device.rs:288-366 | the live buffers are exactly the indexed ones and those held by a call in progress, and no two share one |
| `Device.QuietMeansNoLeak` | src/device.rs:309-366 | when no call holds a buffer, the buffers are exactly the indexed ones |
| `Device.FreeHits` | src/device.rs:103-109 | a free removes a buffer that exists and that no entry refers to |
| `Device.FreedOnce` | src/device.rs:103-109 | no handle is freed twice in any run |
| `Device.OwnerForward` | src/device.rs:53-66 | a handle drawn is new, and a freed one stays freed |
| `Device.UploadFinds` | src/device.rs:68-84 | an upload always finds its buffer |
| `Device.ContentsChange` | src/device.rs:309-366 | what a key holds, bytes, expiry and pin, changes only when a put publishes it, or it is removed or cleared, and then at once |
| `Device.GetIsAtomic` | src/device.rs:288-307 | the bytes, expiry and pin that a get returns are those its key held at the get's own lookup, all at that one step, whatever ran in between |
| `Device.MissesIffEmpty` | src/device.rs:288-297 | a get misses exactly if its key holds nothing at its lookup |
| `Device.FailureMeansHit` | src/device.rs:288-307 | a get that found an entry fails only if its key was published, removed or cleared since the lookup |
| `Device.HoldsLastPut` | src/device.rs:309-340 | in every run a key holds exactly what the last put to publish it was called with |
| `Device.GetReturnsLastPut` | src/device.rs:288-340 | a get returns exactly what the last put to publish its key before the get's lookup was called with |
| `Device.PutThenGet` | src/device.rs:288-340 | a put of any non-empty block followed by a get, as a run |
| `Device.CallsEnd` | src/device.rs:288-366 | a call that has not ended can always take a step, and each of its steps brings it nearer to its end |
| `Quota.QuotaManager.Configure` | src/control.rs:66-101 | accepts exactly ids of 1 to 128 characters with non-zero limits not below usage; then the limits are the new ones and usage is as it was, zero for a new tenant; otherwise nothing changes |
| `Quota.IdCharacters` | src/control.rs:744-757 | the characters of a tenant id |
| `Quota.QuotaManager.BeginRequest` | src/control.rs:103-127 | grants a lease exactly below the in-flight limit, which raises inflight by one and changes nothing else |
| `Quota.QuotaManager.ReleaseRequest` | src/control.rs:222-233 | in a balanced account a live lease ends and inflight falls by exactly one, with nothing else changed for this or any tenant; a released one changes nothing |
| `Quota.QuotaManager.ReserveStorage` | src/control.rs:129-176 | admits exactly what the saturating test admits and records the reservation; with limits below u64::MAX reserved rises by exactly its amounts and stays within them |
| `Quota.QuotaManager.CommitReservation` | src/control.rs:257-275 | in a balanced account reserved falls and used rises by exactly the reservation; other reservations, leases and tenants are unchanged |
| `Quota.QuotaManager.DropReservation` | src/control.rs:277-290 | in a balanced account a pending reservation leaves reserved by exactly its own amounts and nothing else changes; a settled one changes nothing |
| `Quota.QuotaManager.ReleaseUsed` | src/control.rs:178-193 | used bytes and entries fall by the smaller of the amount and what is used; the rest of the account and other tenants are unchanged, and an unknown tenant changes nothing |
| `Quota.NothingSaturates` | src/control.rs:222-290 | no commit, rollback or lease release hits a bound of the saturating arithmetic |
| `Quota.StepBalanced` | src/control.rs:66-193 | every operation keeps the books balanced |
| `Quota.RunBalanced` | src/control.rs:66-296 | in every run with limits below u64::MAX: reserved is the sum of pending reservations, inflight the number of live leases, and used plus reserved within the quota |
| `Quota.AnswersAreExact` | src/control.rs:152-167 | then a reservation is admitted exactly if it really fits |
| `Quota.TenantsIndependent` | src/control.rs:66-193 | a tenant's account is what its own operations alone would give |
| `Quota.AdmitsIffNarrow` | src/control.rs:152-162 | the saturating test is exact precisely for limits below u64::MAX |
| `Quota.BalancedIffNarrow` | src/control.rs:152-170 | all runs under a quota stay balanced exactly if neither storage limit is u64::MAX |
| `Calendar.CivilIsInverse` | src/connectors.rs:848-860 | the date computed for a day is a valid one whose day count is that day |
| `Calendar.InverseIsCivil` | src/connectors.rs:848-860 | every valid date is computed for its day count |
| `Calendar.CivilFollowsCalendar` | src/connectors.rs:848-860 | day 0 is 1970-01-01 and each day is followed by its calendar successor, leap years included |
| `Calendar.CivilAscends` | src/connectors.rs:848-860 | dates ascend with days |
| `Timestamps.TimestampsAscend` | src/connectors.rs:828-846 | formatted timestamps ascend strictly with the seconds |
| `Timestamps.TimestampRange` | src/connectors.rs:828-846 | a timestamp exists exactly while the year has four digits |
| `Timestamps.TimestampReadsBack` | src/connectors.rs:828-846 | read as a calendar date and a time of day, the text gives back the seconds it was made from; its date part is the date on its own |
| `Rle.RleEncode` | src/codec.rs:46-64 | the loop computes the greedy encoding |
| `Rle.RleDecode` | src/codec.rs:66-91 | the loop accepts exactly valid runs that expand to the declared length within the limit, and never produces more |
| `Rle.DecodeInvertsEncode` | src/codec.rs:46-91 | decoding inverts encoding for every byte string |
| `Rle.EncodeIsValid` | src/codec.rs:46-64 | the encoder emits non-zero runs only |
| `Rle.GreedyIsShortest` | src/codec.rs:46-64 | no valid encoding of the input is shorter |
| `Utf8.ValidUtf8Iff` | src/codec.rs:278-279 | the byte strings taken for text are exactly the encodings of sequences of Unicode scalar values |
| `Utf8.BlankIff` | src/reuse.rs:227-240 | trimming leaves nothing exactly if all characters are white space |
| `Envelope.DecodeInvertsEncode` | src/kv.rs:940-1003 | every non-empty entry is recovered from its envelope |
| `Envelope.EncodeInvertsDecode` | src/kv.rs:956-992 | every accepted envelope is the encoding of what it decodes to |
| `Envelope.BoundedAcceptsIff` | src/connectors.rs:874-930 | the size-limited decoder accepts exactly the envelopes within the limit, and refuses all else as invalid data |
| `Frame.FrameRoundTrip` | src/codec.rs:234-315 | decoding inverts encoding for any registered codec that recovers the input within the limit |
| `Frame.EncodesIff` | src/codec.rs:234-258 | a frame is made exactly of a non-empty input that the codec encodes, under a proper codec name |
| `Frame.DecodesIff` | src/codec.rs:260-315 | a frame decodes to x exactly if its header is well formed within the limit, the codec it names is registered and makes x of its payload, and its digest is that of x |
| `Frame.FramedIsRead` | src/codec.rs:260-315 | the answer for every well-formed frame, the refusal of an unknown codec and of a wrong digest included |
| `Frame.IdentityDecodesIff` | src/codec.rs:28-36 | the identity codec gives back its input exactly if that has the declared length within the limit |
| `Frame.BuiltinsRoundTrip` | src/codec.rs:15-92 | the identity and run-length codecs, under their names, recover every input within the limit |
| `Frame.LoadsIff` | src/codec.rs:196-203 | the codec tier gives out exactly what the frame decodes to, with expiry and pin as stored, and never an empty block |
| `Frame.TierRoundTrip` | src/codec.rs:196-219 | an entry written through the codec tier is read back unchanged |
| `Resp.WriteRespCommand` | src/connectors.rs:264-278 | the loop prints exactly the command |
| `Resp.ValueRoundTrip` | src/connectors.rs:280-338 | every reply within the reader's limits, however nested, is read back as itself and leaves what follows it |
| `Resp.ReadIsReadable` | src/connectors.rs:280-357 | whatever the stream holds, a value that is read is within the limits on nesting, lines, integers, bulk sizes and elements |
| `Resp.ReadsBackIff` | src/connectors.rs:280-357 | so a reply is read back as itself exactly if it is within those limits |
| `Resp.NumberLineIsRead` | src/connectors.rs:289-295 | a line of digits, signed or not, is read exactly if it is within 64 bytes and 64 bits |
| `Resp.ReadConsumes` | src/connectors.rs:280-357 | whatever the stream holds, a value that is read leaves a proper tail of it |
| `Resp.ReadElements` | src/connectors.rs:321-333 | the element loop reads that many values in order |
| `Resp.LineIsRead` | src/connectors.rs:340-348 | a line of text without a newline is read back without its terminator exactly if it is within the limit |
| `Resp.CommandRoundTrip` | src/connectors.rs:264-357 | a command of up to 4096 arguments within the limit parses back to its arguments and consumes exactly its own bytes |

## Left out

- Foreign calls, native allocation, network servers and clients, S3 signing, the file store, the daemon and the command line tools: input and output.
- Hit, miss and eviction statistics, events, metrics and telemetry: counters with no effect on behaviour.
- Lock poisoning, thread panics, condition-variable timing and timeouts.
- The internals of SHA-256, and the hexadecimal form of block digests.
- PrefixIndex and the distributed, remote and runtime-control layers: they repeat the cores modelled here or add easy members.
- The execute loops of the async worker: the pipeline model lets each job end either way.
- The 2^64th job id and the 2^64th device handle: both counters would wrap.
- `ContextCache::invalidate` racing with `put`: the cache's results are for sequential runs.
- Runs in which puts, moves, pins or invalidations interleave with other operations on one engine: the code holds no lock across tiers, and `Engine.RacingPromotion` and `Engine.RacingDrop` show that views then change; only the single copy and removal steps are characterised.
- Access times after 2^64 cache operations: the tick saturates, and the statements about the newest entry stop there.
- Byte totals of the context cache are not saturated at 2^64: no store or memory holds that much.
- Corruption counts of store snapshots.
- ContextCaches.ContextCache.Open: says nothing about the cache when it fails, because the builder then drops it.
- Device.InvStep: allocation of an empty buffer is refused by the code and is not a step of the model.
