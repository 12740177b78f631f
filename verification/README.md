# BitDex in Dafny

BitDex is an in-memory bitmap index written in Rust. This project models its hard parts in Dafny and
proves what they promise, for every input and, where the part is a protocol, for every interleaving.
`dafny verify dfyconfig.toml` checks everything.

Bitmaps are finite sets of 32-bit slots. Machine integers are bounded integers. Where the source
truncates, saturates or shifts, the model does too. Roaring, msgpack, UTF-8, CRC32, float printing, the
planner's cost model and document size estimation are function parameters. A file is a byte string, and a
rename replaces it whole. An error is `None` or `Err`, without its text.

| area | modules |
|---|---|
| pages of a sorted result | `Ordering`, `SortOrder`, `SortField`, `SortLayers`, `PageMeaning`, `Paginators`, `CursorWalk` |
| filter evaluation | `FilterQuery`, `Executor`, `FilterAnswers`, `ComputeFilters`, `DocumentFilter`, `BucketSnapping`, `QueryDocuments` |
| filter fields | `VersionedBitmap`, `FilterField`, `FilterRuns`, `FilterLosses` |
| cache maintenance | `Coalesce`, `CoalesceMeaning`, `CacheProtocol`, `CacheSettling`, `CacheLosses` |
| document cache | `DocGenerations`, `DocBatches`, `DocCache`, `DocCacheRuns` |
| logs and files | `Bytes`, `BucketDiffLog`, `BucketDiffBytes`, `PackFormat`, `BoundShard`, `BoundMeta`, `BoundLayout`, `BoundParse`, `MetaParse` |
| expressions | `Decimals`, `DumpExpression`, `DumpLexer`, `DumpExact`, `DumpEquals`, `DumpGrammar`, `DumpSpelling` |
| cache keys | `Sorting`, `CacheKey`, `CacheKeyMeaning`, `CacheKeyTrees`, `CacheKeyCollisions` |

## What the proofs found

Each of these is a lemma with a concrete witness or an exact condition.

- A page of sorted keys with an effective limit of zero underflows an index when no key lies at or before
  the cursor (`Paginators.ExecuteFromSortedKeys` says exactly when).
- An offset page whose offset reaches the page cap has no cursor, so the slots behind it are never listed
  (`CursorWalk.FollowFromOffset`).
- A cursor value wider than a field of fewer than 24 layers makes the radix walk resume elsewhere
  (`Paginators.RadixPagesExact`, `Paginators.RadixPagesDiffer`).
- Inserting a sort value again without removing the slot first keeps the former bits as well
  (`SortLayers.ReinsertExactly`), and an update is right only where the value it names is the one stored
  (`SortLayers.UpdateSets`).
- The key of -1 is the key of null, so asking for -1 also brings the nulls (`DocumentFilter.MinusOneIsNull`).
  Negative integers have keys above all positive ones, so a range over both signs is wrong
  (`DocumentFilter.KeysCompareExactly`). An id is cut to 32 bits (`DocumentFilter.IdWraps`).
- Where a time bucket answers an older-than range, it also brings slots that have no time at all, and the slots
  exactly on the cutoff count as newer under `Gt` and `Lte` (`BucketSnapping.BucketIsScan`).
- Applied by reference, `NotEq` and `NotIn` keep null slots that their full evaluation drops, so clause order
  can change an answer (`ComputeFilters.NotEqOrderMatters`, `ComputeFilters.NotInOrderMatters`, and the exact
  conditions beside them). An empty `And` keeps all candidates when narrowed and none in full
  (`ComputeFilters.EmptyAndDiffers`).
- `remove_value` and `merge_field` clear a dirty mark after releasing the bitmap lock. A write in between is
  never merged (`FilterLosses.WriteBetweenIsForgotten`, `FilterLosses.WriteAfterEvictionIsForgotten`). These
  are interleavings that the methods of `FilterField` admit. In this version nothing calls `merge_field`, and
  `remove_value` is called from the flush thread only (src/concurrent_engine.rs:3623).
- The eviction sweep asks whether a value has a diff, not whether it was saved, so a merged value that was
  never persisted is gone (`FilterLosses.UnsavedEvictionLoses`). In a field that is not lazy a saved value
  must not be evicted either: the next write starts it empty (`FilterLosses.EagerEvictionLoses`).
  `FilterRuns.EvictExact` is the exact condition.
- A value read from disk twice before either read is applied gets removed slots back
  (`FilterLosses.SecondLoadRevives`; `FilterRuns.ApplyLoadExact` says when a load is harmless).
- Coalescing cancels an insert against a remove of the same slot whatever their order and number. This is
  right exactly when the slot changed an even number of times (`CoalesceMeaning.CoalescedReplayExact`). Two
  changes are not enough of a bound: an insert of a slot already present and its removal are one change and
  still cancel (`CoalesceMeaning.OneChangeIsNotEnough`).
- A worker that loads a snapshot newer than its batch can later see the remaining two changes cancel, and
  the entry stays wrong with nothing left to do (`CacheLosses.LoadedAheadIsLost`).
- When the channel is full while the worker holds a loaded snapshot, an entry rebuilt from the newer snapshot
  is overwritten from the older one (`CacheLosses.OvertakenIsLost`, `CacheSettling.ApplyingAgreesExactly`).
- Dropping a backlog invalidates entries by the fields their clauses name. A compound clause names none, so
  its entry stays valid and wrong (`CacheLosses.DroppedBacklogIsLost`, `CacheLosses.SettlesExactlyWhenNamed`,
  `CacheLosses.ConjunctionSettlesExactly`).
- An append torn behind its header hides whole entries appended later, until the length in that header is
  reached (`BucketDiffBytes.TornEntryHidesAppends`, `BucketDiffBytes.WholeEntryIsLost`).
- With `max_diffs` zero the rebuilt cutoff differs from the one in memory
  (`BucketDiffLog.RebuildMatchesExactly`).
- Printing drops grouping, and a shift parsed without a mask prints one that no longer tokenizes
  (`DumpExact.RoundTripIffCanonical` says exactly which expressions survive, `DumpExact.UnmaskedShiftIsLost`).
- Cache keys confuse a number or boolean with the string of the same text, a float with the integer it prints
  as, a string holding a comma with two strings, the empty list with the empty string, an empty `And` with no
  filter at all, and `a or (b and c)` with `(a or b) and c` (`CacheKeyCollisions.StringsCollideExactly`,
  `CacheKeyCollisions.FloatsCollide`, `CacheKeyCollisions.CommasCollide`,
  `CacheKeyCollisions.EmptyListCollides`, `CacheKeyCollisions.EmptyAndCollides`,
  `CacheKeyCollisions.NestingCollides`). They never confuse a clause with its negation
  (`CacheKeyTrees.NegationHasItsOwnKey`).

## Model

| member | source | states |
|---|---|---|
| SortField.Bifurcate | src/sort.rs:323-412 | walking the bit layers from the top selects a subset of size min(limit, candidates) that lies wholly before every candidate left out |
| SortField.ApplyCursor | src/sort.rs:449-526 | the layer-by-layer sieve keeps exactly the candidates strictly after the cursor, seen through the layers' width |
| SortField.ReconstructValue | src/sort.rs:534-558 | ORing one bit per layer gives the value the layers encode |
| SortField.TopN | src/sort.rs:244-313 | cursor filter, bifurcation and the final sort together return the first n candidates after the cursor in (value, slot) order |
| SortField.MaskIsInvisible | src/sort.rs:449-526 | the width of the layers changes a cursor's position exactly when the cursor's value does not fit them |
| SortField.LowBitsAreRemainder | src/sort.rs:449-526 | the bits a field of n layers can see of a value are its remainder by 2^n |
| SortLayers.SpelledExactly | src/sort.rs:534-558 | a slot's layers spell out the low bits of a value exactly when they hold it bit for bit |
| SortLayers.InsertSets | src/sort.rs:140-147 | an insert gives the slot its value if and only if the slot had no bit that the value lacks |
| SortLayers.UpdateSets | src/sort.rs:169-185 | an update by difference gives the slot the new value if and only if the slot holds the former one in every layer where the two agree |
| SortLayers.RemoveClears | src/sort.rs:158-163 | a removed slot reads zero |
| SortLayers.RunsSpellWhatWasWritten | src/sort.rs:73-185 | after every run of inserts, updates and removals that name what they replace, each slot reads the value last written to it, cut to the field's bits |
| SortLayers.RunsOrderByWhatWasWritten | src/sort.rs:73-185 | so slots come in the order of the values written, ties by slot, in either direction |
| SortLayers.ReinsertExactly | src/sort.rs:140-147 | a second insert without a removal is right if and only if the new value has every bit of the former one |
| SortLayers.Field.Insert | src/sort.rs:140-147 | the layers change as specified, one bit at a time, and the fused view is dropped |
| SortLayers.Field.Remove | src/sort.rs:158-163 | the same for a removal |
| SortLayers.Field.Update | src/sort.rs:169-185 | the same for an update by difference |
| SortLayers.Field.FusedLayers | src/sort.rs:111-126 | the view handed out is the layers as they are, whether it was built now or found |
| SortLayers.Field.TopN | src/sort.rs:244-313 | a page over the fused view is the page over the layers as written: up to limit candidates behind the cursor, in order, all others later |
| PageMeaning.PageIsPage | src/executor.rs:896-919 | the reference page holds up to n candidates strictly behind the cursor, in (value, slot) order, high to low when descending, and every candidate it leaves out comes later |
| PageMeaning.SliceIsSlice | src/engine.rs:197-224 | a slice of the listing is in order, each slot has exactly its index many candidates ahead of it, and no candidate lies between its slots |
| Paginators.SimpleSortAndPaginate | src/executor.rs:1046-1092 | sorting all candidates returns the page that (value, slot) order defines, and a cursor at its last slot |
| Paginators.SortAndPaginate | src/executor.rs:896-919 | the layer traversal returns that same page under the cursor seen through the layers' width, for every cursor, and a cursor at its last slot |
| Paginators.SlotOrderPaginate | src/executor.rs:847-894 | without a sort, the page is the one of slot order, in both directions, and the cursor carries its last slot twice |
| Paginators.Unpack | src/executor.rs:924-969 | packing (value << 32) with a slot can be undone, so packed keys order as (value, slot) |
| Paginators.KeysAscend | src/executor.rs:924-969 | packed keys of a listing are strictly monotone in the sort direction |
| Paginators.PartitionPoint | src/executor.rs:924-969 | binary search splits the keys into those at or before the cursor and those after it |
| Paginators.ExecuteFromSortedKeys | src/executor.rs:924-969 | the page equals the one from sorting; the cursor is absent exactly when the page reaches the end; the index underflow happens exactly for limit zero with no key at or before the cursor |
| Paginators.RadixFromBitmap | src/radix_sort.rs:34-57 | the buckets partition the candidates by the top byte of their values |
| Paginators.BucketBesideCursor | src/executor.rs:995-1014 | a bucket other than the cursor's lies wholly before or wholly after the cursor |
| Paginators.ExecuteFromRadix | src/executor.rs:976-1043 | skipping buckets and passing the cursor to one bucket only returns the page and next cursor of sorting everything, both directions, every limit |
| Paginators.RadixCursorExact | src/executor.rs:976-1043 | the position the buckets resume from is the caller's exactly when there are 24 layers, or the cursor's bucket is not the first, or its value fits |
| Paginators.RadixPageIsSimplePage | src/executor.rs:976-1043 | under that condition the radix page equals the simple-sort page |
| Paginators.RadixPagesDiffer | src/executor.rs:976-1043 | for every cursor that violates the condition, a field and a candidate set on which the two pages differ |
| Paginators.RadixPagesExact | src/executor.rs:976-1043 | on all fields with a given number of layers, for all candidates, limits and directions, the two pages agree if and only if the condition holds |
| CursorWalk.Execute | src/executor.rs:186-232 | without a sort the newest slots below the cursor's slot; with one up to min(limit, cap) candidates strictly behind the cursor in the direction the query asks for, low values first when ascending, every other one later; sorting in memory goes by the cursor itself, the layer traversal by its value modulo 2^bits; the cursor of the page carries the value and slot of its last id |
| CursorWalk.PageAdvances | src/executor.rs:836-1092 | the returned cursor stands exactly behind its page: nothing skipped, nothing repeated |
| CursorWalk.ReturnedCursorIsHonoured | src/executor.rs:836-1092 | no paginator, however it masks cursors, moves the cursor of its own page |
| CursorWalk.NextPageFollows | src/executor.rs:836-1092 | after a page with a cursor exactly what is behind the page is left, and a page without one was the last, for each of the five paginators |
| CursorWalk.FollowCursors | src/executor.rs:836-1092 | a client that calls any of the five paginators until there is no cursor terminates and gets every candidate after its first cursor exactly once in order |
| CursorWalk.ExecuteAtOffset | src/engine.rs:197-224 | an offset page has min(limit, cap - offset, matches - offset) slots, none at or past the cap or the end, and is the slice of the order the query asks for that starts at the offset |
| CursorWalk.OffsetPageContinues | src/engine.rs:203-224 | an offset page and what its cursor leaves are everything from the offset on |
| CursorWalk.FollowFromOffset | src/engine.rs:203-224 | a client that starts at an offset and follows cursors gets slices of the query's own order, with no gap and no repeat if and only if the offset is below the page cap or past the end |
| Executor.Plan | src/planner.rs:163-217 | the planner permutes the clauses |
| Executor.PlanIsStable | src/planner.rs:163-217 | the planned order goes from low estimates to high and keeps the given order among equal ones |
| Executor.EvaluateMeans | src/executor.rs:530-769 | whatever plain evaluation returns is exactly the set of matching slots, at any nesting depth |
| Executor.EvaluateOrChild | src/executor.rs:633-664 | the direct reads under `Or` agree with plain evaluation |
| Executor.WithinMeans | src/executor.rs:479-528 | whatever candidate-narrowed evaluation returns is exactly the accepted candidates, despite early exits and even where full evaluation errs, and it succeeds wherever full evaluation does |
| FilterAnswers.AnsweredExactly | src/executor.rs:530-834 | a clause tree of any depth is answered if and only if every leaf has a known field, a literal of the right kind and, for a range that no time bucket answers, a scan within the cap |
| FilterAnswers.OrdinaryIsAnswered | src/executor.rs:530-834 | a tree over known fields without a cap and with integer or boolean bounds is always answered |
| FilterAnswers.LeafRefusedExactly | src/executor.rs:530-834 | a clause without children fails with exactly the error its field, literal or cap calls for |
| FilterAnswers.FirstErrorIsAnError | src/executor.rs:617-664 | a list of clauses fails with the error of the first one that fails |
| FilterAnswers.RefusalIsBlamed | src/executor.rs:530-834 | a failing tree fails with the error of one of its leaves |
| FilterAnswers.NarrowedRefusalIsBlamed | src/executor.rs:479-528 | so does evaluation narrowed to candidates |
| BucketSnapping.BucketIsScan | src/executor.rs:667-743 | for each of the four operators, what a time bucket answers against the scan at the bucket's cutoff, slot by slot |
| BucketSnapping.NothingIsNewer | src/executor.rs:667-743 | a bound at or ahead of now leaves everything alive older than it |
| ComputeFilters.TryAndByRef | src/executor.rs:404-476 | exactly which clauses take this path, the in-place AND and ANDNOT slot by slot, and exactly when and how it errs |
| ComputeFilters.ComputeFilters | src/executor.rs:302-400 | a returned bitmap is always what the per-clause tests accept, even behind short-circuits over erring clauses; answerable clauses never make it fail, and an error is that of the first clause the loop gets to that fails |
| ComputeFilters.NoErrorsNoFailure | src/executor.rs:302-400 | clauses that evaluate without error never make the loop fail |
| ComputeFilters.AnswerableNeverFails | src/executor.rs:302-400 | clauses whose fields, literals and caps are in order never make the loop fail |
| ComputeFilters.FailureIsBlamed | src/executor.rs:302-400 | a failure carries the error of a leaf of one of the clauses |
| ComputeFilters.WithinAgrees | src/executor.rs:479-528 | for regular clauses narrowed evaluation equals the candidates intersected with full evaluation |
| ComputeFilters.ResultIsIntersection | src/executor.rs:302-400 | for regular queries that result is the intersection of the clause meanings |
| ComputeFilters.OrderDoesNotMatter | src/executor.rs:302-400 | every permutation of the clauses gives the same bitmap |
| ComputeFilters.EmptyAndDiffers | src/executor.rs:508-514 | an empty `And` agrees with its narrowed form exactly on no candidates |
| ComputeFilters.NotEqByRefExact | src/executor.rs:448-459 | by-reference `NotEq` agrees with full evaluation exactly when the value excludes every null slot of the accumulator |
| ComputeFilters.NotEqOrderExact | src/executor.rs:448-459 | swapping `NotEq` with another clause changes the answer exactly when a null slot slips through |
| ComputeFilters.NotInByRefExact | src/executor.rs:460-473 | by-reference `NotIn` agrees with full evaluation exactly when the values exclude every null slot of the accumulator |
| ComputeFilters.NotInOrderExact | src/executor.rs:460-473 | swapping `NotIn` with another clause changes the answer exactly when a null slot slips through |
| ComputeFilters.NotEqOrderMatters | src/executor.rs:448-459 | a snapshot on which the two orders of an equality and a `NotEq` give different bitmaps |
| ComputeFilters.NotInOrderMatters | src/executor.rs:460-473 | the same for a `NotIn` |
| DocumentFilter.KeysCompareExactly | src/executor.rs:18-30 | two integers compare like their stored keys, under each of the four operators, if and only if they have the same sign |
| DocumentFilter.MatchesAsksDocuments | src/executor.rs:530-834 | over an index of documents a clause tree of any depth matches exactly the documents that satisfy it, field by field and value by value |
| DocumentFilter.FilterDocuments | src/executor.rs:187-400 | planning and computing the clauses returns exactly the documents that satisfy all of them |
| QueryDocuments.ExecuteQuery | src/executor.rs:187-230 | a whole query over an index of documents: of the documents that satisfy every clause, up to min(limit, cap) of them strictly behind the cursor in the direction asked for, all others later, and the number of all of them |
| DocumentFilter.MinusOneIsNull | src/executor.rs:18-30 | asking for -1 is asking for null |
| DocumentFilter.IdWraps | src/executor.rs:157-185 | an id matches every slot it is congruent to modulo 2^32 |
| VersionedBitmap.ReadsAgree | src/versioned_bitmap.rs:137-170 | point query, narrowed read and fused bitmap agree |
| VersionedBitmap.MergeKeepsContents | src/versioned_bitmap.rs:246-262 | merging never changes the contents, leaves no diff on a loaded bitmap and does nothing on an unloaded one |
| VersionedBitmap.MutationsActOnContents | src/versioned_bitmap.rs:123-135 | inserts and removes act on the logical contents whether or not the base is in memory |
| VersionedBitmap.LoadKeepsContents | src/versioned_bitmap.rs:393-405 | loading keeps the contents exactly for placeholders or when the persisted bits are already decided |
| VersionedBitmap.UnloadKeepsContents | src/versioned_bitmap.rs:373-379 | unloading keeps the contents exactly when base and disk agree outside the diff |
| FilterField.FilterField.constructor | src/filter.rs:91-99 | a new field holds nothing and owes no merge |
| FilterField.FilterField.InsertBulk | src/filter.rs:178-200 | the slots join the value's bitmap, which starts as a placeholder on a lazy field, and the value is marked dirty |
| FilterField.FilterField.RemoveBulk | src/filter.rs:215-225 | the slots leave the value's bitmap even before its base was loaded, and the value is marked dirty |
| FilterField.FilterField.RemoveFromAll | src/filter.rs:227-240 | the slot leaves every bitmap in memory, and all of them are marked |
| FilterField.FilterField.MergeDirty | src/filter.rs:533-566 | drains the marks, merges what is loaded and requeues exactly the dirty values whose base is missing; afterwards a value is marked if and only if it has a diff |
| FilterField.FilterField.MergeField | src/filter.rs:568-596 | one value merged and its mark corrected, taken as one step |
| FilterField.FilterField.LoadValues | src/filter.rs:482-497 | every requested value is loaded and reads as the disk under its diff, absent ones count as loaded, and every other value is untouched |
| FilterField.LoadReaches | src/filter.rs:482-497 | the same of the specification: requested values are in memory and loaded with the disk below their diff, others as before |
| FilterField.FilterField.LoadFieldComplete | src/filter.rs:467-480 | every persisted value is ORed in and everything in memory counts as loaded |
| FilterField.FilterField.ClearBasesAndUnload | src/filter.rs:446-465 | bases go, diffs and marks stay |
| FilterField.FilterField.RemoveValue | src/filter.rs:276-281 | the value and its mark go together, taken as one step |
| FilterRuns.RunsKeepInvariant | src/filter.rs:157-240 | in every interleaving of writers, mergers, evictions, unloads, disk reads and late loads in which each of the four risky steps fits, an unmerged diff is in the dirty set, a pending mark, a drained batch or a requeue list, and every value reads as if it had always been resident |
| FilterRuns.StepIsFaithful | src/filter.rs:446-497 | every step that fits keeps each value equal to a fully resident set that received the same mutations; only late clears, loads, evictions and unloads can fail to fit |
| FilterRuns.ApplyLoadExact | src/concurrent_engine.rs:3227-3244 | ORing in what a query thread read earlier keeps every value's contents if and only if it fits at every value it concerns: nothing new over a base in memory, what the disk tells in place of a missing one |
| FilterRuns.EvictExact | src/concurrent_engine.rs:3585-3623 | evicting a value without a diff keeps the invariants if and only if the disk holds its contents and the field is lazy or those are empty |
| FilterRuns.UnloadExact | src/filter.rs:446-465 | dropping all bases keeps every value's contents if and only if each base in memory agrees with the disk outside its diff |
| FilterRuns.StepForgetsNothing | src/filter.rs:533-566 | no step loses track of an unmerged diff |
| FilterRuns.QuietMeansMerged | src/filter.rs:533-566 | once all threads are idle and the dirty set is empty, no diff is left |
| FilterRuns.ClearMarkExact | src/filter.rs:276-281 | the late clear of a mark, as a step of its own, forgets nothing if and only if the value has no diff by then or another thread holds it |
| FilterLosses.OrderlyRunsAreSafe | src/filter.rs:157-608 | every run in which no value is written while its mark is being cleared, none is read while in memory or already being read, and only saved values of a lazy field leave memory keeps both invariants |
| FilterLosses.WriteBetweenIsForgotten | src/filter.rs:568-596 | a run from the start that ends with all threads idle, nothing marked and a diff left, through a write between the halves of `merge_field` |
| FilterLosses.WriteAfterEvictionIsForgotten | src/filter.rs:276-281 | the same through a write between the halves of `remove_value`, in lazy and eager fields |
| FilterLosses.SecondLoadRevives | src/concurrent_engine.rs:6200-6240 | a run from the start in which the second of two reads of a value brings a removed slot back |
| FilterLosses.UnsavedEvictionLoses | src/concurrent_engine.rs:245-258 | a run from an empty lazy or eager field in which a write is loaded under, merged and evicted before it is persisted, and is gone |
| FilterLosses.EagerEvictionLoses | src/concurrent_engine.rs:3585-3623 | a run in which an eager field evicts a saved value and the next write hides what was saved |
| Coalesce.SymmetricDifferenceSorted | src/cache_worker.rs:271-294 | the two-pointer loop returns both differences, strictly ascending |
| Coalesce.DedupSort | src/cache_worker.rs:233-239 | the same slots, strictly ascending |
| Coalesce.CancelPairs | src/cache_worker.rs:243-269 | per key each side keeps what the other lacks, and a key vanishes exactly when all its slots cancel |
| Coalesce.CoalesceWorkItems | src/cache_worker.rs:189-231 | under each key a slot is inserted if and only if some item inserts it and none removes it, and the converse, in strictly ascending lists; sort, alive, field and bucket parts hold what some item holds |
| CoalesceMeaning.OrderDoesNotMatter | src/cache_worker.rs:189-231 | coalescing any permutation of the items gives one and the same item |
| CoalesceMeaning.CoalescedReplayExact | src/cache_worker.rs:189-231 | applying the coalesced item equals applying the items in order exactly when every slot both inserted and removed changed an even number of times |
| CoalesceMeaning.TwoChangesAreSafe | src/cache_worker.rs:241-242 | with at most two changes per slot and no operation that repeats what holds, nothing is lost |
| CoalesceMeaning.OneChangeIsNotEnough | src/cache_worker.rs:241-242 | a redundant insert and a removal cancel although the slot changed |
| CacheProtocol.UntriggeredIsUnchanged | src/write_coalescer.rs:336-388 | publishing an item changes an entry's membership only of slots the item triggers for it |
| CacheProtocol.TriggerSurvives | src/cache_worker.rs:189-231 | a trigger survives coalescing unless the same merge cancelled the slot; sort triggers always survive |
| CacheProtocol.DropKeeps | src/cache_worker.rs:616-659 | dropping a backlog keeps the staleness invariant at a slot if the drop invalidates the entry or throws away no trigger of the slot |
| CacheProtocol.NamedIsSpared | src/cache_worker.rs:616-659 | no drop throws away a trigger of an entry whose clauses name their fields without invalidating it |
| CacheProtocol.StepKeepsSlot | src/cache_worker.rs:354-614 | publish, send into the bounded channel, failed send, receive, drop, merge, load, apply and rebuild each keep the staleness invariant of a single slot, whatever happens to the others |
| CacheProtocol.StepKeepsInvariant | src/cache_worker.rs:354-614 | the same for all slots together; only a drop asks for anything, namely that it spares each slot |
| CacheProtocol.RunsKeepInvariant | src/cache_worker.rs:34-52 | in every interleaving whose drops spare the entry, a stale cached slot is in the unsent item, a queued item or the worker's hands, or accounted for as forgotten |
| CacheProtocol.SlotSettles | src/cache_worker.rs:34-52 | for any entry and slot, if no merge cancels the slot, no late result reaches it and no drop throws away its trigger without invalidating the entry, a stale slot is still on its way and a settled state is right at it, whatever happened to other slots |
| CacheProtocol.UnnamedLeftIsNeverDropped | src/cache_worker.rs:616-659 | a slot on which no published item operates under a key whose field the entry leaves unnamed is never lost to a drop |
| CacheProtocol.SentIsNeverOvertaken | src/concurrent_engine.rs:2864-2920 | while every item finds room in the channel, no late result reaches any slot |
| CacheProtocol.SettledRunsAgree | src/cache_worker.rs:34-52 | if that holds for every slot, cache and snapshot agree once settled |
| CacheProtocol.SortTriggersAreNeverForgotten | src/cache_worker.rs:183-185 | for any entry, filters included and whatever fields it names, a slot of which only sort values change is never cancelled, never lost to a drop and never left stale unless a late result reaches it |
| CacheSettling.FinishingAgreesExactly | src/cache_worker.rs:387-402 | for every entry, merging and applying what was collected restores agreement if and only if every cancelled slot that is not re-derived for another reason was cached rightly before |
| CacheSettling.ApplyingAgreesExactly | src/cache_worker.rs:399-520 | after applying results every stale slot is still on its way if and only if each re-derived slot on which the loaded and the published snapshot differ is |
| CacheSettling.DroppingAgreesExactly | src/cache_worker.rs:368-384 | after a drop every stale slot is still on its way if and only if each stale slot that no queued item triggers is spared by it |
| CacheSettling.RunEndsAsPublished | src/concurrent_engine.rs:2847-2867 | while every item is sent, replaying what is on its way changes no published bucket |
| CacheSettling.FinishingRunAgreesExactly | src/cache_worker.rs:387-402 | at every state such a run reaches and for every entry, finishing restores agreement if and only if each cancelled slot that is not re-derived was cached the way the last operations on the keys the entry reads leave it |
| CacheSettling.EqualityFinishesExactly | src/cache_worker.rs:387-402 | for one equality clause: if and only if each slot both inserted and removed, and not re-sorted, was cached the way its last operation leaves it |
| CacheLosses.LoadedAheadIsLost | src/cache_worker.rs:399-402 | a run from an empty channel and an unbuilt entry to a settled stale state, because the worker loaded ahead of its batch |
| CacheLosses.OvertakenIsLost | src/concurrent_engine.rs:2864-2920 | a run in which a send finds the channel full of items on another key, and which ends settled with the rebuilt entry overwritten from an older snapshot |
| CacheLosses.FailedSendLeavesOlder | src/concurrent_engine.rs:2864-2920 | after such a send what is on its way no longer ends in what is published |
| CacheLosses.DroppedBacklogIsLost | src/cache_worker.rs:368-384 | for any entry, snapshot and unnamed key on which its membership depends there, a run in which the worker collects more than the backlog limit and drops it, and which ends settled with the entry wrong |
| CacheLosses.SettlesExactlyWhenNamed | src/unified_cache.rs:2393-2403 | for an entry in which every key it reads matters on some snapshot, all settled runs that forget nothing agree if and only if its clauses name every field it reads, whatever the limits |
| CacheLosses.EqualitySettlesExactly | src/unified_cache.rs:2393-2403 | for one equality clause and any set of named fields, if and only if its field is among them |
| CacheLosses.ConjunctionSettlesExactly | src/unified_cache.rs:2393-2403 | for a conjunction of equalities and any set of named fields, if and only if all its fields are among them |
| CacheLosses.EngineLosesAllThree | src/concurrent_engine.rs:1387 | the three losses happen with a channel of 1024 and a backlog limit of 4096 |
| DocGenerations.SizeWithout | src/doc_cache.rs:52-88 | the byte sum of a generation does not depend on the order of counting |
| DocGenerations.LookupAfterGet | src/doc_cache.rs:118-152 | reading and promoting leave the logical map as it was and each slot in one generation |
| DocGenerations.GetBytes | src/doc_cache.rs:143-152 | promotion moves bytes between counters without changing the total |
| DocGenerations.InsertWorks | src/doc_cache.rs:154-171 | the slot ends in the current generation only, with exact counters |
| DocGenerations.LookupAfterInsert | src/doc_cache.rs:154-171 | the slot reads as inserted, every other slot as before |
| DocGenerations.UpdateWorks | src/doc_cache.rs:212-234 | a cached document is rewritten where it is, its counter corrected without underflow |
| DocGenerations.LookupAfterUpdate | src/doc_cache.rs:212-234 | cached slots read as written, uncached ones stay uncached |
| DocGenerations.RemoveWorks | src/doc_cache.rs:237-245 | the slot is in no generation afterwards and no counter underflows |
| DocGenerations.MergeWorks | src/doc_cache.rs:270-333 | the two oldest generations become one holding the entries and bytes of both |
| DocGenerations.PushWorks | src/doc_cache.rs:249-268 | rotation keeps the logical map, the total bytes and the cap of max(1, max_generations) |
| DocGenerations.PushMoves | src/doc_cache.rs:249-333 | rotation puts an empty generation in front and moves every entry one back, the two oldest generations ending up together at the cap |
| DocGenerations.EverythingIsLookup | src/doc_cache.rs:118-141 | all entries of all generations together are exactly what lookups find |
| DocGenerations.TotalsAreExact | src/doc_cache.rs:353-368 | the byte total is the size of every cached entry and the entry count their number |
| DocGenerations.EvictWorks | src/doc_cache.rs:397-406 | eviction drops generations from the old end only, no more than the budget asks, never the current one, and ends under budget or with one generation |
| DocCache.DocCache.constructor | src/doc_cache.rs:105-114 | one empty generation |
| DocCache.DocCache.Get | src/doc_cache.rs:118-141 | answers with the logical map, promotes on an older hit and counts hits and misses |
| DocCache.DocCache.Promote | src/doc_cache.rs:143-152 | the entry leaves its generation for the current one |
| DocCache.DocCache.Insert | src/doc_cache.rs:154-171 | removes wherever the slot was, then inserts in the current generation, keeping validity |
| DocCache.DocCache.InsertBatch | src/doc_cache.rs:178-204 | every slot of the batch reads as its last pair and is in the current generation, every other one reads as before |
| DocCache.DocCache.UpdateBatchIfCached | src/doc_cache.rs:212-234 | a cached slot of the batch reads as its last pair, one that is not cached stays uncached, every other one reads as before |
| DocBatches.InsertAllWorks | src/doc_cache.rs:178-204 | after a batch each slot of it is in the current generation only, with the document and size of its last pair, and every other slot is where it was |
| DocBatches.LookupAfterUpdateAll | src/doc_cache.rs:212-234 | write-through of a batch changes cached slots to their last pair and caches nothing |
| DocBatches.FetchWorks | src/concurrent_engine.rs:8838-8945 | after a fetch every slot asked for is cached if it is stored and nothing else is cached anew |
| DocBatches.FetchMoves | src/concurrent_engine.rs:8838-8945 | what a fetch asks for ends in the current generation, everything else stays where it was |
| DocCache.FetchAll | src/concurrent_engine.rs:8838-8945 | each slot is answered with its cached document or else the stored one, and the missing ones are cached in one batch |
| DocCache.DocCache.Remove | src/doc_cache.rs:237-245 | the slot leaves its generation |
| DocCache.DocCache.PushNewGeneration | src/doc_cache.rs:249-268 | rotation with the merge at the cap |
| DocCache.MergeOldest | src/doc_cache.rs:270-333 | the entry-by-entry copy into the larger generation computes the merge and its byte counter |
| DocCache.DocCache.DropOldestGeneration | src/doc_cache.rs:336-350 | drops the oldest unless it is current, and counts exactly the entries lost |
| DocCache.DocCache.Evict | src/doc_cache.rs:397-406 | terminates under budget or with one generation and reports exactly the entries lost |
| DocCache.DocCache.Clear | src/doc_cache.rs:409-412 | one empty generation again |
| DocCacheRuns.FreshHolds | src/doc_cache.rs:105-114 | a new cache beside any store satisfies the invariant |
| DocCacheRuns.RunsKeepInvariant | src/doc_cache.rs:118-412 | in every sequential run slots are in one generation, counters are exact, the cap holds, cached documents equal the store, and newer generations were touched in later epochs |
| DocCacheRuns.WriteIsCoherent | src/concurrent_engine.rs:4181-4198 | a batch written through the cache and then to the store leaves them equal |
| DocCacheRuns.ReadsSeeTheStore | src/concurrent_engine.rs:8808-8822 | after any run a cached read answers with what the store holds |
| DocCacheRuns.FetchesSeeTheStore | src/concurrent_engine.rs:8838-8945 | after any run, batched fetches among its steps, a fetch answers with what the store holds and caches it |
| DocCacheRuns.EvictsLeastRecentlyUsed | src/doc_cache.rs:397-406 | after any run each entry an eviction drops was last inserted or hit in a strictly earlier epoch than every entry it leaves |
| Bytes.LeRoundTrip | src/bucket_diff_log.rs:160-167 | a number that fits its width is read back from its little-endian bytes |
| Bytes.LeIsFaithful | src/bucket_diff_log.rs:184-195 | little-endian bytes are written back as they were read |
| Bytes.FourBytes | src/bucket_diff_log.rs:184-195 | four bytes stand for their weighted sum, the lowest first |
| BucketDiffLog.DiffLog.constructor | src/bucket_diff_log.rs:142-148 | a log over a file that is not there yet |
| BucketDiffLog.DiffLog.Append | src/bucket_diff_log.rs:151-170 | the file grows by exactly one encoded entry |
| BucketDiffLog.ParseEntry | src/bucket_diff_log.rs:184-218 | length, checksum and bitmap are checked before an entry is taken |
| BucketDiffLog.EntryLayout | src/bucket_diff_log.rs:151-170 | both cutoffs, the length, the bitmap and the checksum of everything before it lie at bytes 0, 8, 16, 20 and behind the bitmap |
| BucketDiffLog.DecodeLoop | src/bucket_diff_log.rs:174-223 | the loop over positions returns the entries up to the first one cut short or damaged |
| BucketDiffLog.DiffLog.ReadAll | src/bucket_diff_log.rs:174-223 | the entries of the file as it stands |
| BucketDiffLog.ReadsAppended | src/bucket_diff_log.rs:174-223 | appended entries are read back in order and reading goes on with whatever follows them |
| BucketDiffLog.TornEntryIsIgnored | src/bucket_diff_log.rs:184-195 | a proper prefix of an entry is never taken for an entry |
| BucketDiffLog.WholeEntriesFit | src/bucket_diff_log.rs:174-223 | the number of entries wholly inside a prefix is the one the byte lengths dictate |
| BucketDiffLog.TruncationLosesOnlyTheTail | src/bucket_diff_log.rs:174-223 | cutting the log at any byte returns exactly the entries wholly inside the prefix |
| BucketDiffLog.DiffLog.ReadRetained | src/bucket_diff_log.rs:226-230 | the last max_diffs entries, or all if there are fewer |
| BucketDiffLog.DiffLog.CompactIfNeeded | src/bucket_diff_log.rs:234-265 | rewrites the file if and only if it has an entry and more of them than max_diffs * (1 + pct), and then it reads as its last max_diffs entries; otherwise the file is untouched |
| BucketDiffLog.ComputeMerged | src/bucket_diff_log.rs:112-118 | a slot is merged exactly when some diff expires it |
| BucketDiffLog.PendingBucketDiffs.constructor | src/bucket_diff_log.rs:49-56 | nothing pending, cutoff zero |
| BucketDiffLog.PendingBucketDiffs.FromDiffs | src/bucket_diff_log.rs:59-68 | the merge and the last cutoff of the given diffs |
| BucketDiffLog.PendingBucketDiffs.Push | src/bucket_diff_log.rs:71-81 | the newest max_diffs diffs, their merge, and the new cutoff |
| BucketDiffLog.RebuildMatchesMemory | src/bucket_diff_log.rs:59-265 | booted from any file that is written back byte for byte, after any run of append-and-push, compaction and reboot the log restores the diffs, merge and cutoff that memory holds, for max_diffs at least one |
| BucketDiffLog.RebuildMatchesExactly | src/bucket_diff_log.rs:59-265 | for every such file and every max_diffs, exactly when a diff may be retained or no cutoff has been reached |
| BucketDiffBytes.WritesBackExactly | src/bucket_diff_log.rs:151-223 | reading a file and writing its entries gives the same bytes if and only if it holds whole entries only, each with its bitmap as the codec writes it |
| BucketDiffBytes.TornEntryHidesAppends | src/bucket_diff_log.rs:184-195 | for every sound codec, behind an append torn after its header nothing is read until the length in the header is reached, while all entries before it are |
| BucketDiffBytes.WholeEntryIsLost | src/bucket_diff_log.rs:184-195 | a codec, a torn append and a whole one behind it that is lost though it reads back alone |
| PackFormat.ReadFields | src/bound_store.rs:675-682 | a run of 32-bit reads succeeds exactly when all of it lies inside the data |
| PackFormat.ReadsAsPair | src/bound_store.rs:333-430 | readers in sequence read parts in sequence |
| PackFormat.ReadLoop | src/bound_store.rs:347-411 | the reading loop stops at the first failure and otherwise reads every record |
| PackFormat.DecodeWords | src/bound_store.rs:622-633 | the 8-byte loop reads the words the encoder wrote |
| BoundShard.SerializeShard | src/bound_store.rs:457-533 | header, running offsets and three sections in one buffer |
| BoundShard.WriteIndex | src/bound_store.rs:500-516 | the running offsets are the positions of each part in its section |
| BoundShard.ReadEntryAt | src/bound_store.rs:593-640 | key, bitmap and sorted keys of one row are read from their sections, the sorted keys only when there are any and their length is a multiple of eight |
| BoundShard.DeserializeShard | src/bound_store.rs:535-648 | total on every byte string, equal to the parse of its index and sections |
| BoundShard.ShardRoundTrip | src/bound_store.rs:457-648 | every entry list whose lengths fit reads back, an empty list of sorted keys as none, and version 1 without sorted keys |
| BoundLayout.ShardLayout | src/bound_store.rs:457-533 | version and count, rows of 28 bytes (20 in version 1) with id, offsets and lengths, then all keys, all bitmaps and all sorted keys, each at the byte its row points to |
| BoundParse.RowInRows | src/bound_store.rs:560-592 | row i stands at byte 8 plus i times the row width |
| BoundParse.ShardParsesExactly | src/bound_store.rs:535-648 | for every byte string at all, the reader returns entries if and only if the bytes are a shard file with those entries: version 1 or 2, a whole index, and key, bitmap and whole words of sorted keys decoding from where each row points |
| BoundMeta.SerializeMeta | src/bound_store.rs:276-331 | version, entries, tombstones and next id in one buffer |
| BoundMeta.DeserializeMeta | src/bound_store.rs:333-435 | total on every byte string, equal to the parse of its records |
| BoundMeta.EntryReads | src/bound_store.rs:346-411 | a record reads back wherever it lies in the file |
| BoundMeta.MetaRoundTrip | src/bound_store.rs:276-435 | every meta file whose lengths fit reads back, with bucket bitmaps stripped, and version 1 with an empty clause tree |
| BoundLayout.MetaLayout | src/bound_store.rs:276-331 | version and count, then the records one after the other with every field at its byte, then tombstones and next id |
| MetaParse.RecordReadsExactly | src/bound_store.rs:346-411 | for every byte string and position a record is read if and only if its head, clauses, numbers and, from version 2 on, clause tree decode one after the other |
| MetaParse.MetaParsesExactly | src/bound_store.rs:333-435 | for every byte string at all, the reader returns a meta file if and only if the bytes are one: version 1 or 2, as many records as counted, tombstones and next id |
| DumpExpression.ParseOrTokens | src/dump_expression.rs:500-508 | the loop nests `or` to the left over conjunctions |
| DumpExpression.ParseAndTokens | src/dump_expression.rs:510-518 | the loop nests `&&` to the left over comparisons |
| DumpExpression.ParseAtomTokens | src/dump_expression.rs:573-628 | parentheses recurse into the whole parser and `max` reads its column list, on every token list |
| DumpExpression.MaxColumnsLoop | src/dump_expression.rs:594-619 | the loop reads comma-separated columns up to the closing parenthesis |
| DumpExpression.OrLeavesSuffix | src/dump_expression.rs:500-628 | on any token list the parser terminates and every success leaves a proper suffix, at every level |
| DumpExpression.TokensParseBack | src/dump_expression.rs:500-628 | the tokens of a precedence-canonical expression parse to the same tree with nothing left |
| DumpLexer.Tokenize | src/dump_expression.rs:422-496 | the character loop yields the tokens of the text or fails at the first bad one |
| DumpLexer.Parse | src/dump_expression.rs:392-404 | trimming, the character loop and the recursive parser loops together compute the function that the round-trip theorems are about |
| DumpLexer.PrintYields | src/dump_expression.rs:358-377 | tokenizing the printed text gives the expression's tokens, whatever follows that does not run a word on |
| DumpLexer.PrintParsesBack | src/dump_expression.rs:392-404 | printing, tokenizing and parsing a precedence-canonical expression returns the same tree |
| DumpEquals.OrDoubles | src/dump_expression.rs:520-533 | replacing every `=` by `==` in any token list changes nothing but the rest that is left, at every level of the parser |
| DumpEquals.TextsParseAlike | src/dump_expression.rs:392-533 | two texts whose tokens differ only in `=` against `==` parse alike |
| DumpEquals.SingleParsesBack | src/dump_expression.rs:392-533 | a canonical expression written with `=` parses back to it |
| DumpGrammar.ParsesExactly | src/dump_expression.rs:500-628 | a token list parses to an expression with nothing left if and only if the grammar writes it for that expression |
| DumpSpelling.LexesExactly | src/dump_expression.rs:422-496 | a text has given tokens if and only if it spells them with blanks anywhere between and no token running on into the next |
| DumpSpelling.TextParsesExactly | src/dump_expression.rs:392-404 | an input parses to an expression if and only if, blanks around it aside, it spells tokens that the grammar writes for that expression |
| DumpExact.ParseBackIsCanonical | src/dump_expression.rs:500-628 | tokens parse back to the expression they came from only if it is precedence-canonical, since the parser regroups every other nesting |
| DumpExact.OrIsKnown | src/dump_expression.rs:500-628 | every leaf of a parsed expression is a name, a number below 2^63 or a quote-free string when every token is, whatever the text |
| DumpExact.PrintFails | src/dump_expression.rs:470-478 | a mask of 2^63 or more anywhere in an expression makes its printed text fail to tokenize |
| DumpExact.RoundTripIffCanonical | src/dump_expression.rs:358-404 | for every expression at all, printing and parsing returns the same tree if and only if it is precedence-canonical |
| DumpExact.UnmaskedShiftIsLost | src/dump_expression.rs:558-571 | a shift without a mask parses to the full mask, whose printed form does not parse |
| Sorting.SortForgetsOrder | src/cache.rs:167-199 | two lists sort alike if and only if they hold the same elements the same number of times |
| CacheKey.KeysAreOrdered | src/cache.rs:13-19 | key parts are totally ordered by field, operator and value |
| CacheKey.Canonicalize | src/cache.rs:179-199 | the key is the sorted list of the clause parts, top-level `And` flattened |
| CacheKeyMeaning.SameCanonical | src/cache.rs:22-126 | rearranging children of `And` and `Or` at any depth leaves the canonical clause alone |
| CacheKeyMeaning.KeyIgnoresOrder | src/cache.rs:167-199 | keys are unchanged by permuting top-level clauses or the children of any nested `And` or `Or` |
| CacheKeyMeaning.JoinTells | src/cache.rs:34-43 | a separated list of separable texts has one reading, for any separator |
| CacheKeyTrees.EqualKeysMeanTheSame | src/cache.rs:22-199 | equal keys match the same slots in every snapshot, for lists of equality, membership, range, null and bucket clauses over 64-bit integers, booleans and strings that are the text of neither, their negations at any depth, and `And` and `Or` over those whose texts hold no separator |
| CacheKeyTrees.NegationHasItsOwnKey | src/cache.rs:22-199 | no clause at all, of any depth and with any texts, shares its key with its negation |
| Decimals.IntegerTextsExact | src/cache.rs:167-174 | the texts of 64-bit integers are exactly the optional sign and digits without a leading zero whose value lies in range |
| CacheKeyCollisions.SameTextDiffers | src/cache.rs:167-174 | every number and boolean shares its key with the string of the same text, and a snapshot tells them apart |
| CacheKeyCollisions.StringsCollideExactly | src/cache.rs:167-174 | a string collides with a number or boolean if and only if it is the text of one |
| CacheKeyCollisions.CommasCollide | src/cache.rs:34-43 | a string with a comma shares its key with two strings, and a snapshot tells them apart |
| CacheKeyCollisions.EmptyListCollides | src/cache.rs:34-43 | the empty list shares its key with the list of the empty string, and a snapshot tells them apart |
| CacheKeyCollisions.EmptyAndCollides | src/cache.rs:187-190 | an empty `And` shares its key with no filter at all, and matches nothing where that matches everything |
| CacheKeyCollisions.FloatsCollide | src/cache.rs:167-174 | a float shares its key with the integer it prints as, and a snapshot tells them apart |
| CacheKeyCollisions.NestingCollides | src/cache.rs:89-116 | `a or (b and c)` and `(a or b) and c` share a key, and a snapshot tells them apart |

## Left out

- Case folding and dictionaries of mapped strings: names are a map from field and text to a number.
- EqualKeysMeanTheSame: not over `And` or `Or` inside `And` or `Or`, because those keys do collide (`CacheKeyCollisions.NestingCollides`), and which of them do is not characterised.
- FilterDocuments: not for documents with a null under `NotEq` or `NotIn` or an empty `And` under `Not`, because there the answer depends on the clause order (`ComputeFilters.NotEqOrderExact`, `ComputeFilters.NotInOrderExact`, `ComputeFilters.EmptyAndDiffers`).
- ExecuteQuery: the same exceptions as FilterDocuments.
- Bulk writes, `or_layer` and lazy loading of sort layers: the modelled writes go slot by slot.
- Concurrency of the document cache: its generations are shared maps with atomic counters; the model is sequential, as is the store's failure to write a batch the cache already took.
- Wrap-around of the document cache's 64-bit byte counters: sizes are natural numbers.
- `or_bitmap`, `insert_versioned` and index-level field copies as steps of filter runs: `insert_versioned` clears a mark late in the way `FilterRuns.ClearMarkExact` covers.
- A stopped cache worker, after which every send fails: only a full channel makes one fail.
- Alive removals, time-bucket membership, tombstones and per-entry bounds in cache maintenance: an entry's membership is any predicate of the buckets it reads and its sort value.
- Storing a cache entry from a snapshot loaded earlier: a rebuild is one step from the published snapshot.
- Choosing which entries a trigger reaches: the worker re-derives any superset of the triggered slots.
- Float arithmetic of the compaction threshold: it is exact over the reals.
- An append torn inside its header, followed by further appends: what is read then is whatever the bytes from there on happen to decode to (`BucketDiffLog.ReadsAppended` with that remainder).
- The idle stamps of the eviction sweep: a clock decides among the values without a diff, so any of them may be evicted.
- `unload_from`, which drops entries without a diff: the model unloads with `clear_bases_and_unload`, which keeps them as placeholders.
- Overflow of file positions: they are unbounded, where the source uses 64-bit sizes.
- Unicode in expressions: text is a list of characters, trimmed of ASCII blanks only; error texts are left out.
- Evaluation of dump expressions, field dictionaries, ingestion, configuration, metrics, benches and the HTTP server: easier members or operational code.
- File listing, fsync, memory mapping and channels: plumbing around the modelled steps.
