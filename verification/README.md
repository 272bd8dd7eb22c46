# Nyion inference engine: a verified model

This project models, in Dafny, the algorithms and protocols that surround the float arithmetic of
the Nyion inference engine, and proves what they promise. Verify it with
`dafny verify dfyconfig.toml`.

| files | what they model |
|---|---|
| `Paging`, `LruSpec`, `LruReach`, `CacheZones`, `ColdStore`, `CacheState`, `CacheRuns`, `CacheSaves`, `CacheClash`, `CacheCopies`, `CacheScores`, `KvCache` | the tiered paged KV cache: three zones, the index-linked LRU list, importance-guided eviction, the cold file, residency; whole runs of ensures, saves and importance records, with the FP32 copies that readers see and the importances recorded |
| `KvQuant`, `KvBlocks`, `KvPages`, `KvCopies` | the 4-bit form of cached vectors, its addressing, and what becomes of one page's bytes and FP32 copy |
| `Attention`, `AttentionReals`, `Prefill` | the page-by-page attention walk, what it means over reals, the sparse position sets, chunked prefill |
| `Pipeline`, `PipelineOrder`, `InFlight` | the sequential and the threaded stage pipeline, the order in which requests pass through it, and how many are in it at once |
| `Graphs`, `Homology`, `Geo` | connectivity, the H0 barcode by union-find, components by explicit-stack search |
| `Q4K`, `FusedGemv`, `GemvReals`, `Softmax`, `SoftmaxReals`, `Vnni` | Q4_K blocks and the fused kernels, linear over reals; the fixed-point softmax and its distance from the real one; the biased int8 dot product |
| `PatternDrafts`, `DraftFile` | the pattern draft ring buffer, drafting, saving and loading |
| `Governor`, `Streaming` | sessions and VRAM accounting, the three-slot prefetch queue and its staging buffer |
| `Common`, `MixedRadix`, `Sorting` | shared vocabulary, row-major indices, the stable sort |

Float operations are uninterpreted parameters wherever the order of evaluation is kept (attention,
prefill, the scalar and multi kernels), and reals where it is not (the batched kernel) or where the
claim is about size (KV quantisation) or meaning (`AttentionReals`, `GemvReals`, `SoftmaxReals`). Integers are unbounded, with 32-bit wrap-around and shifts
written out in `Vnni` and `Softmax`. Threads are a state machine over single steps, and claims about
them hold for every interleaving.

The cache's methods are proved equal to functions on its value (`CacheRuns.Ensure`,
`CacheSaves.Took`, `CacheCopies.Acted`); what a whole run keeps is proved about those functions, over
every run from an empty cache.

Ghost parameters and ghost fields carry the abstract value a method is proved against: a zone's list
as a sequence, a slot's owner, the history a ring holds the end of. The cache's ghost flags
`overwrote` and `clobbered` record that an eviction found no free slot, or that its write met the
bytes of another cold page.

## What the code does not do

Where a promise turned out not to hold, the code is modelled as it is, and the exact condition under
which it holds is proved.

- Residency (`ResidencyExact`, `ResidencyExactInUse`): `ensure_pages_hot_f32` leaves a range of n
  pages of a zone resident for every earlier state, also of those that come about in use, exactly
  when the limit is at least n + 7, or n is at most 1. Where nothing records importances it is
  enough, and needed, that the limit is at least n (`ResidencyUnrecorded`). Attention asserts
  residency of its whole range.
- Cold slots (`OverwriteExact`, `EnsureKeeps`, `EvictSlots`): when the zones have at most given numbers
  of pages, no run overwrites a slot still in use exactly when the cold pages of all zones together
  are fewer than the slots. One slot is to spare because a reload evicts before it frees the slot it
  reads.
- Cold bytes (`ClobberExact`, `EvictBytesExact`, `ZonesClashExact`): slots are placed by the evicting
  zone's own page size, so slots of two zones can overlap. An eviction loses no bytes, whatever the
  pages hold, exactly when its range meets no cold page's. No run within given numbers of pages
  writes over a cold page exactly when nothing is ever evicted, or only one zone can evict, with a
  slot to spare. For any two zones, limit and layout `CorruptingRun` is a run of five operations,
  with a slot free all along, after which a page of the later zone holds what was saved in the
  earlier one.
- Saving over an earlier save (`ReusedSlotExact`, `ReusedSlotCorrupts`): nibbles are or-ed in, so a
  second save into a slot is right exactly when the earlier nibbles' bits are among the new ones.
- FP32 copies (`SaveAtSeenExact`, `SaveSeenExact`, `EverySaveSeen`, `PrefillSees`): `save_at` does not
  refresh a page's FP32 copy, and a copy is made for all layers at once. Whatever is saved, a reader
  sees a `save_at` within the quantisation bounds exactly when the page had no copy and the slot's
  nibbles are still zero, as in a new page; a `save` exactly when the page had a copy or they are.
  Over whole runs a vector saved once is what every later reader sees, except after a `save_at` into
  a copy that has not been dropped since: then readers see what the copy held. In a prefill, layers
  after the first read what was stored before it, until the page is evicted and reloaded. `Prefill`
  therefore uses a store whose reads return what was last stored.
- Concurrent pipeline (`AgreesWithExecute`): a request that fails after its first stage ends as an
  error in `execute` but as a partial success in `execute_concurrent`. The `max_concurrency`
  comment calls it the number of active requests; it bounds each channel. Active requests stay
  within it in every run exactly when there are no more requests (`ActiveWithinBoundExact`); the
  most there can be is one more than the bound for each stage (`ActiveBound`, `PeakReached`).
- `persistent_h0` (`PersistentH0`): the comment says one bar for each component; there is one more
  when any two nodes are connected, dying at the bottleneck similarity.
- Fixed-point softmax (`KernelSumExact`, `VectorIsScalar`, `DifferenceExact`, `FallbackIsOneHot`):
  the vector path zeroes a lane that holds all the mass, so the outputs sum to one exactly when the
  mass is shared or lies in the scalar tail, or there are so many logits that the bound says
  nothing; the difference to the maximum wraps beyond 2^31; the fallback returns 1 for such an
  element and 0 for every other.
- int8 dot product (`ExactBelow`): exact for all vectors exactly while the vector part is shorter
  than 131072.
- Draft file (`SaveLoad`): header fields are cut to 32 bits, so saving and loading undo each other
  exactly when they fit.
- Registry (`RegisterConserves`): registering resets a model's count, which stays right exactly when
  the model is not a VRAM one with live sessions. An admitted session keeps the VRAM in use within
  the capacity exactly when what it brings into use fits (`CapacityExact`); `UnderstatedSize` shows
  that admission relies on callers stating sizes no smaller than the registry's estimates.
- Uploads (`UploadSafeExact`, `RunDeliversExact`): all uploads share one staging buffer and do not wait
  for each other. In every run, all copies carry their own data exactly when each upload agrees
  with every copy then pending, as far as both go; an upload that fails after staging counts too.
- Sparse attention (`SparseIsFull`, `EmptySparse`): the exact parameters for which the position set
  is the full causal range, and those for which it is empty.

## Model

| member | source | states |
|---|---|---|
| `Paging.ResolveInverts` | swamp-engine/src/cache.rs:211-233 | `resolve_flat` gives back zone and local page of every flat id of an allotted page |
| `Paging.FlatInverts` | swamp-engine/src/cache.rs:222-233 | every flat id is the id of the page it resolves to |
| `Paging.BlocksAndRest` | swamp-engine/src/cache.rs:217-220 | local page and slot are quotient and remainder by the zone's block size |
| `Paging.PagesInExact` | swamp-engine/src/cache.rs:185-197 | a zone's pages are exactly those some position lies on; in the last zone, some position below the sequence length |
| `Paging.PageAndSlotInjective` | swamp-engine/src/cache.rs:594-611 | two positions with the same page id and slot are the same position |
| `Paging.PageHoldsItsBlock` | swamp-engine/src/cache.rs:594-611 | a page lies in one zone: all positions of its block share its id and start and take its slots in order |
| `Paging.NextPageStarts` | swamp-engine/src/cache.rs:594-611 | the position after a page starts the next page, also across zone boundaries |
| `Paging.RangeCovered` | swamp-engine/src/cache.rs:555-561 | a range of flat ids is covered by the parts the three zones have of it |
| `CacheZones.CacheZone.AllocHotPage` | swamp-engine/src/cache.rs:278-309 | a new zeroed page joins at the head; prev, next, head and tail still thread exactly the hot pages, each once |
| `CacheZones.CacheZone.Touch` | swamp-engine/src/cache.rs:311-324 | relinking moves exactly that page to the head and keeps the list threaded |
| `CacheZones.LinkedBypass` | swamp-engine/src/cache.rs:326-336 | bypassing a page leaves the threaded list of the others, in order |
| `CacheZones.LinkedPushFront` | swamp-engine/src/cache.rs:311-324 | linking a page in front of the head threads the list with it first |
| `CacheZones.CacheZone.PickVictim` | swamp-engine/src/cache.rs:407-434 | walking prev links from the tail finds the first least-important of the last eight pages of the list |
| `CacheZones.CacheZone.Evict` | swamp-engine/src/cache.rs:463-482 | the page leaves the list, its bytes and its FP32 copy are dropped and its slot recorded; the rest of the zone is as it was |
| `CacheZones.CacheZone.Reload` | swamp-engine/src/cache.rs:517-528 | the page comes back hot at the head with the bytes read |
| `LruSpec.EnsureOk` | swamp-engine/src/cache.rs:531-547 | ensuring a page keeps the list free of repeats and of unallocated pages |
| `LruSpec.EnsureHead` | swamp-engine/src/cache.rs:531-547 | the page ensured ends at the head, with every page up to it allocated |
| `LruSpec.EnsureBound` | swamp-engine/src/cache.rs:531-547 | with a cold store and a limit of at least 1, hot pages never exceed the limit |
| `LruSpec.EnsureFull` | swamp-engine/src/cache.rs:531-547 | with a cold store the hot pages are exactly as many as the limit allows of those allocated, and without one all of them |
| `LruSpec.RunFronted` | swamp-engine/src/cache.rs:407-434 | over a run that ensures consecutive pages, the pages ensured so far are the front of the list, newest first |
| `LruSpec.ResidencyExact` | swamp-engine/src/cache.rs:531-561 | for every starting state a range of n consecutive pages ends up hot at once if and only if the limit is at least n + 7, or n is at most 1 |
| `LruReach.CrowdedReached` | swamp-engine/src/cache.rs:531-581 | the state that needs the seven pages is reached from an empty zone by ensures and importance records |
| `LruReach.ResidencyExactInUse` | swamp-engine/src/cache.rs:531-581 | the same exact limit over the states a zone comes to by ensures, importance records and resets |
| `LruReach.ResidencyUnrecorded` | swamp-engine/src/cache.rs:407-434 | while no importance is recorded, a range of n pages always ends up hot at once if and only if the limit is at least n |
| `ColdStore.ChooseSlot` | swamp-engine/src/cache.rs:441-449 | the first free slot from the cursor on, around the file, or the cursor's own slot when all are used |
| `ColdStore.WriteKeepsExact` | swamp-engine/src/cache.rs:451-459 | writing one range keeps another for all contents if and only if the two do not meet |
| `ColdStore.SameZoneDisjoint` | swamp-engine/src/cache.rs:451-459 | different slots of one zone never meet |
| `ColdStore.SlotFits` | swamp-engine/src/cache.rs:259-263 | every slot of every zone lies within a file sized for the largest page |
| `ColdStore.ChosenIs` | swamp-engine/src/cache.rs:441-449 | the chosen slot is used if and only if all are |
| `ColdStore.RoundSteps` | swamp-engine/src/cache.rs:441-449 | the search goes from the cursor to each next slot, and from the last to the first |
| `ColdStore.ZonesClashExact` | swamp-engine/src/cache.rs:451 | where pages of one zone are m times as large, its slot s meets exactly slots m * s to m * s + m - 1 of the other, for all slots and sizes |
| `CacheState.SlotsExactMeans` | swamp-engine/src/cache.rs:441-463 | exact slots: no two cold pages share a slot, and a slot is marked if and only if a cold page owns it |
| `CacheState.EvictSlots` | swamp-engine/src/cache.rs:441-463 | an eviction into a free slot keeps slots exact; into a used one it makes two cold pages share it |
| `CacheState.FreeSlotInOneZone` | swamp-engine/src/cache.rs:441-459 | while one zone alone has cold pages, a free slot meets the bytes of none of them |
| `CacheState.AllUsedExact` | swamp-engine/src/cache.rs:436-483 | cold pages, of all zones together, are no more than slots, and all slots are used if and only if they are as many |
| `CacheState.EvictBytes` | swamp-engine/src/cache.rs:451-463 | an eviction that meets no cold page's bytes changes no page's K or V bytes, in any zone, hot or cold |
| `CacheState.EvictBytesExact` | swamp-engine/src/cache.rs:451-463 | an eviction loses no bytes whatever all pages hold if and only if its range meets no cold page's |
| `CacheState.EvictKeeps` | swamp-engine/src/cache.rs:407-483 | what every eviction keeps: slots, bytes unless clobbered, and no clobbering while one zone evicts into free slots |
| `CacheState.StoreMovesOn` | swamp-engine/src/cache.rs:441-463 | after a store the next search starts behind the slot just written and comes to it last |
| `CacheState.ReloadKeeps` | swamp-engine/src/cache.rs:485-529 | a reload gives the page the bytes its slot holds, frees the slot, and changes no page's bytes |
| `CacheState.GrowKeeps` | swamp-engine/src/cache.rs:278-309 | allocating a zeroed page keeps every other page's bytes and all slots, whichever zone has the cold pages |
| `CacheRuns.MakeRoomKeeps` | swamp-engine/src/cache.rs:407-483 | making room overwrites a slot if and only if a page has to go and every slot is in use; otherwise one more slot is in use |
| `CacheRuns.GrowToCounts` | swamp-engine/src/cache.rs:531-540 | growing a zone overwrites a slot if and only if the pages it evicts are more than the free slots |
| `CacheRuns.EnsureKeeps` | swamp-engine/src/cache.rs:485-547 | `ensure_page` keeps list, buffers and slots in step; it overwrites a slot if and only if it is overfull, which is read off the list and the number of slots in use beforehand |
| `CacheRuns.QuietKeeps` | swamp-engine/src/cache.rs:531-547 | in a zone that stays within the limit it changes no slot, owner or cold page, whichever zone has those |
| `CacheSaves.EnsuredWithRoom` | swamp-engine/src/cache.rs:531-547 | where one zone alone has cold pages, with room to spare, `ensure_page` on any zone, within its bound, overwrites and clobbers nothing, every page keeps its bytes and the room is still to spare |
| `CacheSaves.SpaciousRun` | swamp-engine/src/cache.rs:407-547 | over every run within the zones' bounds, where only one zone may evict, with a slot to spare, nothing is overwritten or clobbered |
| `CacheSaves.OverwriteExact` | swamp-engine/src/cache.rs:436-547 | all runs within the zones' bounds overwrite no slot in use if and only if the cold pages of all zones together are fewer than the slots, or there is no cold store |
| `CacheSaves.TookPages` | swamp-engine/src/cache.rs:531-547 | an operation that clobbers nothing changes the K and V bytes of a page, hot or cold, only by saving to it |
| `CacheSaves.SavedVectorsReadBack` | swamp-engine/src/cache.rs:613-669 | over every run of ensures, saves, importance records and resets that clobbered nothing, a key and value saved once read back at the end within their blocks' bounds |
| `CacheSaves.SpaciousReadsBack` | swamp-engine/src/cache.rs:613-669 | and so they do after every run where only one zone may evict, with a slot to spare, a condition on the operations alone |
| `CacheScores.EveryRecordCounts` | swamp-engine/src/cache.rs:565-581 | over every run a page exists once it or a later one of its zone has been brought in, and its importance is the sum of the weights recorded for its positions since the last reset, through evictions and reloads |
| `CacheClash.ClobberExact` | swamp-engine/src/cache.rs:407-547 | all runs within the zones' bounds write over no cold page if and only if nothing is ever evicted, or only one zone can evict and RAM and cold store hold its pages with a slot to spare |
| `CacheClash.ZonesCorrupt` | swamp-engine/src/cache.rs:441-463 | for any two zones, limit and layout, in every such run of five operations the page saved in the earlier zone is read inside a page of the later one, with a slot free all along |
| `CacheClash.CorruptingRun` | swamp-engine/src/cache.rs:441-463 | such a run exists, for every position of the first page of the earlier zone, and the page of the later zone changes |
| `CacheCopies.EverySaveSeen` | swamp-engine/src/cache.rs:338-402 | over every run of ensures, fills of FP32 copies, both kinds of saves, importance records and resets that clobbered nothing, a key and value saved once are what every later reader of the copies sees within their blocks' bounds; after a `save_at`, only once the copies have been dropped, and what they held before until then |
| `CacheCopies.SpaciousSeen` | swamp-engine/src/cache.rs:338-402 | and so in every run where only one zone may evict, with a slot to spare |
| `KvCache.PagedKVCache.constructor` | swamp-engine/src/cache.rs:111-183 | a new cache has the value of the empty one: three zones, no cold file, nothing overwritten, no copies |
| `KvCache.PagedKVCache.StoreCold` | swamp-engine/src/cache.rs:251-276 | the cold file is created on first use; the bytes go to the chosen slot, which is marked, and the cursor moves past it |
| `KvCache.PagedKVCache.EvictOnePage` | swamp-engine/src/cache.rs:407-483 | the zone's victim goes cold: list, states, bytes and slots change as the pure eviction says |
| `KvCache.PagedKVCache.ReadBack` | swamp-engine/src/cache.rs:506-528 | the slot's bytes come back as the page's, and the slot is freed |
| `KvCache.PagedKVCache.ReloadColdPage` | swamp-engine/src/cache.rs:485-529 | room is made first, then the page is read back at the head; list and stored data change as the pure steps say |
| `KvCache.PagedKVCache.EnsurePage` | swamp-engine/src/cache.rs:531-547 | the invariant is kept, the page is hot and first of its zone's list, and cache and copies change as the step of the runs says |
| `KvCache.PagedKVCache.EnsureF32Page` | swamp-engine/src/cache.rs:338-402 | a hot page without copies gets both, every element as its block reads back; existing ones stay; nothing else changes |
| `KvCache.PagedKVCache.EnsurePagesHotF32` | swamp-engine/src/cache.rs:555-561 | it is a run of fills, page by page; afterwards every page of the range is hot and dequantised at once, in each zone whose share leaves seven pages of the limit, or whose pages are then no more than the limit; where one zone alone has cold pages, with room to spare for all the range brings in, no page loses a byte |
| `KvCache.PagedKVCache.EnsureForAttention` | swamp-engine/src/ops.rs:185-186 | and so is the page of every position up to the last one attended, also across zones |
| `KvCache.PagedKVCache.SaveAt` | swamp-engine/src/cache.rs:749-811 | the page is ensured and the position's key and value quantised over what its slot held, as a step of the runs; copies and everything else stay |
| `KvCache.PagedKVCache.Save` | swamp-engine/src/cache.rs:613-679 | as `save_at`, and the rows of existing copies get the vectors themselves |
| `KvCache.PagedKVCache.GetUnchecked` | swamp-engine/src/cache.rs:681-703 | a head's key or value at a position, as the page's copies hold it |
| `KvCache.PagedKVCache.RecordImportance` | swamp-engine/src/cache.rs:565-571 | the weight is added for a page that exists, as a step of the runs; nothing else changes |
| `KvCache.PagedKVCache.ResetEntropy` | swamp-engine/src/cache.rs:574-580 | every importance is zero, as a step of the runs; nothing else changes |
| `KvQuant.MaxAbsAttained` | swamp-engine/src/cache.rs:640-648 | a block's scale comes from the magnitude of one of its own elements |
| `KvQuant.QuantIsNearest` | swamp-engine/src/cache.rs:639-660 | over reals the quantised level is the nearest one and at most 14: the clamp to 15 never bites |
| `KvQuant.QuantError` | swamp-engine/src/cache.rs:639-660 | distance of a dequantised element from the original, for any stored header: tolerance plus 14 header-scale errors plus the header-minimum error |
| `KvQuant.StepsIs` | swamp-engine/src/cache.rs:392 | n steps of d are d times n |
| `KvBlocks.OrBits` | swamp-engine/src/cache.rs:659 | what is or-ed in has exactly the bits of either number |
| `KvBlocks.NibblesUptoAt` | swamp-engine/src/cache.rs:654-660 | each of the first n nibbles is or-ed with its level, every other nibble is as it was |
| `KvBlocks.SaveThenRead` | swamp-engine/src/cache.rs:639-660 | saved into a fresh slot, every element reads back within a fourteenth of the magnitude of some element of its block, or 1.4e-9, plus what the f16 header loses, and without that for a header f16 holds exactly |
| `KvBlocks.ReusedSlotExact` | swamp-engine/src/cache.rs:659 | a save over an earlier one stores the right nibbles if and only if every bit of the earlier nibble is one of the new one, element by element |
| `KvBlocks.ReusedSlotCorrupts` | swamp-engine/src/cache.rs:659 | [7, -7] saved over [-7, 7] reads back as [7, 7] |
| `KvPages.BlockOffset` | swamp-engine/src/cache.rs:626-664 | the byte offset the cache computes is 20 times the row-major index of layer, head, slot and block |
| `KvPages.IndexInjective` | swamp-engine/src/cache.rs:626-664 | different blocks have different indices |
| `KvPages.IndexInPage` | swamp-engine/src/cache.rs:626-664 | and all lie within the page |
| `KvPages.Extremes` | swamp-engine/src/cache.rs:640-648 | one pass gives the largest magnitude and the least element: bounds of all elements that some elements attain |
| `KvPages.ElementAt` | swamp-engine/src/cache.rs:630-633 | element e of a head is number head * head_dim + e of the vector saved |
| `KvPages.QuantizeBlock` | swamp-engine/src/cache.rs:638-661 | a block is written as quantised over what it held, and no byte outside its 20 changes |
| `KvPages.SaveAt` | swamp-engine/src/cache.rs:749-811 | all blocks of the layer and slot, head by head, are quantised over what they held; every other block of the page is untouched |
| `KvPages.DequantBlock` | swamp-engine/src/cache.rs:375-396 | the loop over one block, cut off where the head's vector ends, writes exactly its elements |
| `KvPages.F32Offset` | swamp-engine/src/cache.rs:365 | the FP32 offset the cache computes is the row-major index of layer, head, slot and element |
| `KvPages.DequantPage` | swamp-engine/src/cache.rs:338-402 | the whole nest of loops: every element of the FP32 page is what its block reads back as |
| `KvPages.SavedReadsBack` | swamp-engine/src/cache.rs:338-402 | round trip through a page, for every header: an element of the vector saved into a fresh slot reads back within its own block's bound plus what f16 loses of the header |
| `KvPages.EverySaveReadsBack` | swamp-engine/src/cache.rs:749-811 | over every run of saves onto a new page, each vector saved once to its layer and slot reads back within its blocks' bounds, header loss included, at the end of the run |
| `KvPages.OthersReadBack` | swamp-engine/src/cache.rs:749-811 | every element of another layer or slot reads back as before |
| `KvCopies.SaveAtSeenExact` | swamp-engine/src/cache.rs:749-811 | whatever is saved by `save_at`, a reader sees it within its blocks' bounds if and only if the page had no copy and the slot's nibbles were zero |
| `KvCopies.SaveSeenExact` | swamp-engine/src/cache.rs:613-679 | by `save`, if and only if the page had a copy or the slot's nibbles were zero |
| `KvCopies.Refresh` | swamp-engine/src/cache.rs:671-677 | head by head, the vector over its rows of the copy; no other element changes |
| `KvCopies.EverySaveSeen` | swamp-engine/src/cache.rs:338-402 | over every run of one page, a vector saved once is what every later reader of its copy sees, unless saved by `save_at` into a copy not dropped since: then what the copy held before |
| `KvCopies.PrefillSees` | swamp-engine/src/executor.rs:104-135 | in a layer-by-layer prefill, layer 0 reads what it has just saved, as stored, and every later layer what was stored before |
| `KvCopies.PrefillSeenAfterEviction` | swamp-engine/src/cache.rs:463-483 | once the copy is dropped and made again, every layer of the prefill reads as saved within its blocks' bounds, where the slot was unwritten |
| `Attention.StoredHolds` | swamp-engine/src/cache.rs:594-611 | storing vectors position by position at their page and slot overwrites none: each is found where its position leads |
| `Attention.ScorePages` | swamp-engine/src/ops.rs:199-231 | the page-by-page loop ends, scores every position up to the last exactly as a flat loop, and keeps the same running maximum |
| `Attention.MaskAndSoftmax` | swamp-engine/src/ops.rs:233-248 | mask and softmax in place over the buffer, whatever it held |
| `Attention.MixPages` | swamp-engine/src/ops.rs:250-276 | the page-by-page weighted sum is the flat one, in the same order |
| `Attention.AttendPaged` | swamp-engine/src/ops.rs:170-280 | one head of paged attention equals flat causal attention under uninterpreted float operations |
| `Attention.MaskedIsPrefix` | swamp-engine/src/ops.rs:233-236 | masking future positions is leaving them out, when exp(-inf - top) added to the total actually reached leaves it as it is |
| `Attention.Causal` | swamp-engine/src/ops.rs:183 | keys and values after the query's position do not matter |
| `Attention.SparsePositions` | swamp-engine/src/ops.rs:102-113 | the sparse positions are strictly increasing, causal, and exactly the latest `window` ones and the first 128 multiples of the stride that have a whole stride before the window |
| `Attention.SparseIsFull` | swamp-engine/src/ops.rs:102-113 | the set is the full range if and only if the window reaches the start, or the stride is 1 with at most 128 older positions |
| `Attention.EmptySparse` | swamp-engine/src/ops.rs:102-113 | the set is empty if and only if the window is 0 and the stride exceeds the context |
| `Attention.LatestAttended` | swamp-engine/src/ops.rs:104 | the query's own position and the latest `window` ones are attended, for a window of at least 1 |
| `Attention.SparseMeansFull` | swamp-engine/src/ops.rs:85-164 | where the set is full, sparse attention is full attention, under that one condition on the scores' own total |
| `AttentionReals.LargestBounds` | swamp-engine/src/ops.rs:220-226 | the running maximum bounds every score and is one of them |
| `AttentionReals.WeightsSumToOne` | swamp-engine/src/ops.rs:238-248 | over reals every weight is positive and they sum to one |
| `AttentionReals.WeightsInRatio` | swamp-engine/src/ops.rs:238-248 | the weights are in the ratio of the exponentials of the scores, whatever maximum is subtracted first |
| `AttentionReals.AttendIsMean` | swamp-engine/src/ops.rs:238-276 | in every coordinate, attention times the sum of the exponentials of the scores is the sum of their products with the values: for any list of positions, sparse or full |
| `AttentionReals.EqualValues` | swamp-engine/src/ops.rs:238-276 | attention over values that agree in a coordinate has that coordinate |
| `AttentionReals.PagedIsMean` | swamp-engine/src/ops.rs:170-280 | so the result of the paged walk is that mean over the whole context, for a query at its end |
| `Attention.FuguPositions` | swamp-engine/src/ops.rs:462-485 | the sparse set is extended by exactly the causal draft positions not yet in it, without repeats |
| `Attention.AttendListed` | swamp-engine/src/ops.rs:494-540 | the three loops over listed positions compute attention over that list |
| `Prefill.LaterTokensDoNotMatter` | swamp-engine/src/executor.rs:83-182 | hidden states, keys and values of a position depend on no later token |
| `Prefill.PrefillSlice` | swamp-engine/src/executor.rs:43-182 | a slice at its absolute positions writes exactly its own entries of every layer; some rows of states start as the tokens' embeddings and move on layer by layer, each key rotated by its position and stored with its value, each query attending to the entries stored up to its position, and the last one is the answer |
| `Prefill.PrefillBatch` | swamp-engine/src/executor.rs:191-233 | for every prompt and chunk size the states and entries left satisfy the same over the whole prompt from position 0, and are the reference ones; the empty prompt gives the default |
| `Prefill.TransformsDetermines` | swamp-engine/src/executor.rs:83-182 | only one run of states and entries satisfies that: the reference one |
| `Prefill.WroteDetermines` | swamp-engine/src/executor.rs:191-233 | two prefills of one prompt onto one store, in whatever chunks, end with equal stores |
| `Pipeline.Execute` | swamp-engine/src/pipeline.rs:126-155 | all stage outputs if every stage succeeds, an error otherwise: the first stage is run on the input and every other on the output before it |
| `Pipeline.OutputsGrow` | swamp-engine/src/pipeline.rs:135-152 | outputs of more stages extend those of fewer, and stop at the first failure |
| `Pipeline.OutputsChain` | swamp-engine/src/pipeline.rs:135-152 | the outputs are a chain from the input up to the first stage that fails |
| `Pipeline.ChainIsOnly` | swamp-engine/src/pipeline.rs:135-152 | and there is only one such chain |
| `Pipeline.StepKeeps` | swamp-engine/src/pipeline.rs:194-249 | every step of every thread keeps the invariant: each request is in one place and has exactly the outputs of the stages it has passed |
| `Pipeline.RecordedIsPrefix` | swamp-engine/src/pipeline.rs:204-235 | at every moment of every run, a request's recorded list is a prefix of its sequential outputs |
| `Pipeline.SomeStepEnabled` | swamp-engine/src/pipeline.rs:173-249 | no deadlock: until all threads have exited some step is enabled, for any channel bound, 0 included |
| `Pipeline.StepDecreases` | swamp-engine/src/pipeline.rs:194-255 | every step strictly decreases the remaining work |
| `Pipeline.StuckMeansDone` | swamp-engine/src/pipeline.rs:246-255 | a state of a run has no enabled step if and only if every thread has exited |
| `Pipeline.RunsAreShort` | swamp-engine/src/pipeline.rs:194-255 | no run is longer than the initial measure |
| `Pipeline.FinalAnswers` | swamp-engine/src/pipeline.rs:257-264 | under every schedule a request ends with the chain of its stages' outputs up to the first failing one, or as an error when the first stage fails |
| `Pipeline.AgreesWithExecute` | swamp-engine/src/pipeline.rs:126-265 | the answer equals the sequential one if and only if all stages succeed or the first fails |
| `PipelineOrder.StepInOrder` | swamp-engine/src/pipeline.rs:173-249 | every step of every thread keeps requests, and the messages in every channel, in the order in which they were sent |
| `PipelineOrder.NoOvertaking` | swamp-engine/src/pipeline.rs:173-249 | at every moment of every run a later request has no more outputs than an earlier one, unless the earlier one has all it will ever have |
| `InFlight.ActiveBound` | swamp-engine/src/pipeline.rs:157-249 | at every moment of every run, active requests are at most those sent, and at most one more than the bound for each stage |
| `InFlight.PeakReached` | swamp-engine/src/pipeline.rs:157-249 | when no stage fails, some run reaches the smaller of the two |
| `InFlight.ActiveExceedsBound` | swamp-engine/src/pipeline.rs:157-180 | with more requests than the bound, some run has one more than the bound active, for every bound |
| `InFlight.ActiveWithinBoundExact` | swamp-engine/src/pipeline.rs:157-180 | `max_concurrency` bounds the active requests of every run if and only if it is at least the number of requests |
| `Graphs.ConnectedAfterEdge` | swamp-engine/src/ace/homology.rs:92-97 | a new edge connects what its ends were connected to, and nothing else |
| `Homology.Find` | swamp-engine/src/ace/homology.rs:70-73 | terminates, returns the root, and compresses the path without moving a node to another class |
| `Homology.RankBelowRoot` | swamp-engine/src/ace/homology.rs:70-83 | ranks strictly grow along the way to the root |
| `Homology.RankBound` | swamp-engine/src/ace/homology.rs:67-81 | 2 to the rank is at most the number of nodes, so a byte holds it |
| `Homology.RelabelSized` | swamp-engine/src/ace/homology.rs:78-82 | a root of rank k keeps at least 2^k nodes after a union by rank |
| `Homology.Union` | swamp-engine/src/ace/homology.rs:74-84 | true if and only if the two were in different classes, which become one; one root fewer exactly then |
| `Homology.RootsCount` | swamp-engine/src/ace/homology.rs:91-97 | roots are as many as connected components |
| `Homology.LastMergeIsBottleneck` | swamp-engine/src/ace/homology.rs:86-98 | edges at least as similar as the last merging one connect whatever all edges connect; strictly more similar ones do not |
| `Homology.PersistentH0` | swamp-engine/src/ace/homology.rs:62-102 | c infinite bars for c components, then one bar dying at 1 minus the bottleneck similarity, unless no two nodes are connected; nothing for no nodes |
| `Geo.Adjacency` | swamp-engine/src/ace/geo.rs:96-103 | the lists hold exactly the links above epsilon |
| `Geo.Search` | swamp-engine/src/ace/geo.rs:109-126 | terminates; exactly the start's component becomes visited, each node listed once, the start first |
| `Geo.Split` | swamp-engine/src/ace/geo.rs:92-126 | a partition of the nodes into whole components, ordered by their least nodes |
| `Geo.SamePartIffConnected` | swamp-engine/src/ace/geo.rs:92-126 | two nodes share a part if and only if a path of edges above epsilon joins them |
| `Q4K.Unpack` | swamp-gguf/src/quant/q4_k.rs:37-53 | the loops give the eight 6-bit scales and minima of the 12 bytes |
| `Q4K.ScaleBits` | swamp-gguf/src/quant/q4_k.rs:37-53 | which bits of the 12 bytes each bit of each scale and minimum is |
| `Q4K.Pack` | swamp-engine/src/qat.rs:230-243 | the loops build the 12 packed bytes |
| `Q4K.UnpackPacked` | swamp-engine/src/qat.rs:230-243 | unpacking packed scales gives them back modulo 64 |
| `Q4K.SixBitScalesSurvive` | swamp-engine/src/qat.rs:230-243 | packing loses nothing if and only if all values have 6 bits |
| `Q4K.PackUnpacked` | swamp-kernels/src/fused_gemv_q4k.rs:30-43 | every 12 bytes are the packing of what they unpack to |
| `Q4K.Dequant` | swamp-gguf/src/quant/q4_k.rs:21-99 | every weight of a destination of any length, or an error and an untouched destination exactly when the bytes do not suffice |
| `FusedGemv.RowIsDequantised` | swamp-kernels/src/fused_gemv_q4k.rs:402-416 | a row's block weights are those dequantising the whole matrix gives |
| `FusedGemv.ProductOfDequantised` | swamp-gguf/src/quant/q4_k.rs:55-99 | a kernel's output is the dot product of x with its row of what `dequant_q4k` writes |
| `FusedGemv.RowSumIsDot` | swamp-kernels/src/fused_gemv_q4k.rs:399-436 | block-by-block folding is the left-to-right dot product of the whole row |
| `FusedGemv.FoldBlock` | swamp-kernels/src/fused_gemv_q4k.rs:408-433 | the nibble loops fold the block's 256 dequantised weights in order onto the accumulator |
| `FusedGemv.Scalar` | swamp-kernels/src/fused_gemv_q4k.rs:395-437 | every output is its dequantised row's left-to-right dot product, under uninterpreted float operations |
| `FusedGemv.Multi` | swamp-kernels/src/fused_gemv_q4k.rs:330-388 | the block-outer kernel over several matrices gives the same outputs, operation for operation |
| `FusedGemv.Batched` | swamp-kernels/src/fused_gemv_q4k.rs:754-802 | every output gains its row's block sums in order of the blocks; where addition regroups, as over reals, that is its dequantised row's dot product |
| `FusedGemv.RealsRegroup` | swamp-kernels/src/fused_gemv_q4k.rs:754-802 | real addition regroups |
| `FusedGemv.BlockSumsAreRowSum` | swamp-kernels/src/fused_gemv_q4k.rs:754-802 | where addition regroups, those block sums are the initial value plus the row's sum |
| `FusedGemv.BlockSumsAreProduct` | swamp-kernels/src/fused_gemv_q4k.rs:754-802 | so on zeroed outputs the batched kernel gives the dequantised rows' dot products |
| `GemvReals.ProductOfZero` | swamp-kernels/src/fused_gemv_q4k.rs:395-437 | over reals every output of a kernel is 0 for the zero vector |
| `GemvReals.ProductAdds` | swamp-kernels/src/fused_gemv_q4k.rs:395-437 | the outputs for a sum of vectors are the sums of the outputs |
| `GemvReals.ProductScales` | swamp-kernels/src/fused_gemv_q4k.rs:395-437 | and those for a multiple are the multiples |
| `GemvReals.ProductOfUnit` | swamp-kernels/src/fused_gemv_q4k.rs:395-437 | the output for the j-th unit vector is weight j of the row, where `dequant_q4k` writes it |
| `GemvReals.GainIsProduct` | swamp-kernels/src/fused_gemv_q4k.rs:754-802 | what the batched kernel adds to its outputs is such a product |
| `Softmax.Maximum` | swamp-kernels/src/lib.rs:116-140 | sixteen lanes, their reduction and the tail give the largest logit |
| `Softmax.LargestIsMax` | swamp-kernels/src/lib.rs:116-140 | which bounds every logit and is one of them |
| `Softmax.OutputsSumToOne` | swamp-kernels/src/lib.rs:152-173 | the scalar outputs sum to between 65536 - 2n and 65536 |
| `Softmax.OutputOrder` | swamp-kernels/src/lib.rs:170-173 | a larger exponential never gets a smaller output |
| `Softmax.VectorIsScalar` | swamp-kernels/src/lib.rs:159-169 | the 32-bit vector product gives the scalar value if and only if the lane does not hold all the mass; then it gives 0 |
| `Softmax.DifferenceExact` | swamp-kernels/src/lib.rs:146-149 | the wrapped difference has the right exponential if and only if the logit is at most 2^31 below the maximum |
| `Softmax.ElementExact` | swamp-kernels/src/lib.rs:146-149 | an element of the kernel has the right exponential if and only if it is at most 2^31 below the largest |
| `Softmax.Kernel` | swamp-kernels/src/lib.rs:113-180 | the kernel computes the exponentials and both normalisation paths where they apply, and returns their sum cut to 32 bits |
| `Softmax.ReturnedSumExact` | swamp-kernels/src/lib.rs:142-180 | the returned sum is the true one if and only if that is below 2^31, as it is for fewer than 32768 logits |
| `Softmax.SumIsPositive` | swamp-kernels/src/lib.rs:142-152 | the sum is at least 65536 for at least one logit |
| `Softmax.KernelSumsToOne` | swamp-kernels/src/lib.rs:113-180 | the kernel's outputs, mixed paths included, sum to between 65536 - 2n and 65536 when the mass is shared, also when differences wrap |
| `Softmax.KernelSumExact` | swamp-kernels/src/lib.rs:113-180 | they do so if and only if the mass is shared, or all of it is in the scalar tail, or there are at least 32768 logits, where the bound allows a sum of 0 |
| `Softmax.KernelKeepsOrder` | swamp-kernels/src/lib.rs:113-180 | a larger logit never gets a smaller output when no difference wraps, shared mass or not |
| `SoftmaxReals.ValueIsNear` | swamp-kernels/src/lib.rs:103-108 | for numbers up to 0 the Q16.16 exponential is within 3 units of the true one, also where it is cut to 0 |
| `SoftmaxReals.KernelIsSoftmax` | swamp-kernels/src/lib.rs:113-180 | where the mass is shared and no difference wraps, every output is within 3n + 5 units of 2^-16 of the real softmax of its logit, for n logits |
| `Softmax.FallbackIsOneHot` | swamp-kernels/src/lib.rs:203-216 | the fallback's output is 1 for an element with all the mass and 0 otherwise |
| `Vnni.DotAdds` | swamp-kernels/src/lib.rs:477-481 | the exact dot product is additive in the activations |
| `Vnni.DotOfOne` | swamp-kernels/src/lib.rs:477-481 | where one activation alone is not 0 it is that one's product |
| `Vnni.SignFlip` | swamp-kernels/src/lib.rs:503-512 | flipping a signed byte's top bit, read as unsigned, adds 128 |
| `Vnni.BiasIs` | swamp-kernels/src/lib.rs:487-491 | the flipped-bit dot product exceeds the signed one by 128 times the activation sum |
| `Vnni.VectorPart` | swamp-kernels/src/lib.rs:492-533 | however lanes wrap, the vector loop and reduction give the exact dot product of all full groups of 64, wrapped once to 32 bits |
| `Vnni.DotVnni` | swamp-kernels/src/lib.rs:486-542 | the vector part is converted to f32, the remaining products are converted and added in order, and the result is scaled, under uninterpreted float operations |
| `Vnni.ExactBelow` | swamp-kernels/src/lib.rs:486-535 | the vector part is exact for all inputs if and only if it is shorter than 131072 |
| `Vnni.KernelExact` | swamp-kernels/src/lib.rs:477-542 | below that length the result is the scalar path's, the scaled exact dot product: for multiples of 64 always, otherwise when the remaining additions are exact |
| `PatternDrafts.HashBits` | swamp-engine/src/dspark.rs:74-88 | bit i of a hash is set exactly when the hidden state is on the positive side of plane i |
| `PatternDrafts.DistanceIsSeparating` | swamp-engine/src/dspark.rs:74-88 | the Hamming distance of two hashes is the number of planes that separate the hidden states |
| `PatternDrafts.ApartIsSeparating` | swamp-engine/src/dspark.rs:231-240 | what `draft` compares is how many of up to 64 planes separate the two states |
| `PatternDrafts.PatternDraft.OrderedIdxIsSlot` | swamp-engine/src/dspark.rs:63-72 | logical index i is stored in the slot of the i-th oldest observation, and none beyond the length |
| `PatternDrafts.PatternDraft.ObserveAt` | swamp-engine/src/dspark.rs:102-111 | the ring then holds exactly the latest `capacity` observations of the whole history, in order |
| `PatternDrafts.BestIsEarliestNearest` | swamp-engine/src/dspark.rs:231-243 | the match is at the least distance, and earlier ones are strictly farther |
| `PatternDrafts.PatternDraft.Draft` | swamp-engine/src/dspark.rs:225-271 | a draft is empty exactly when its length is 0 or no observation that enough tokens follow is within half of the bits; otherwise it is the tokens after the earliest nearest of those, each with the confidence that distance has |
| `PatternDrafts.DraftFollowsNearest` | swamp-engine/src/dspark.rs:225-271 | the same of every draft that the search and the copying loop give |
| `PatternDrafts.PatternDraft.FindSimilar` | swamp-engine/src/dspark.rs:205-221 | positions of observations with their distances, nearest first and stably, as many as there are up to n; an observation that is not among them is no nearer than any of them; none from fewer than two |
| `PatternDrafts.SimilarAreNearest` | swamp-engine/src/dspark.rs:218-220 | no observation left out is nearer than one returned |
| `DraftFile.Save` | swamp-engine/src/dspark.rs:114-136 | the loops build exactly the encoded bytes |
| `DraftFile.Load` | swamp-engine/src/dspark.rs:149-193 | the cursor loops decode the bytes, or fail exactly where the decoder does |
| `DraftFile.LoadExact` | swamp-engine/src/dspark.rs:149-193 | a file loads as a store if and only if it is the store's encoding, under any version and with anything after it, and the header fits |
| `DraftFile.Layout` | swamp-engine/src/dspark.rs:114-136 | at which offset of the file each header field, hash, token and position is |
| `DraftFile.LittleEndian` | swamp-engine/src/dspark.rs:114-136 | numbers are read least significant byte first |
| `DraftFile.SaveLoad` | swamp-engine/src/dspark.rs:114-193 | decoding the encoded store gives it back if and only if its header fields fit in 32 bits |
| `Governor.TotalIs` | swamp-engine/src/model_registry.rs:110-115 | no models use nothing, and one model more adds its estimate if it is a VRAM one in use |
| `Governor.RegisterConserves` | swamp-engine/src/model_registry.rs:59-76 | registering keeps counts equal to live sessions if and only if the model is not a VRAM one with live sessions |
| `Governor.ReleaseConserves` | swamp-engine/src/governor.rs:162-167 | removing a session and releasing its model keeps counts equal to live sessions, and never raises the VRAM in use |
| `Governor.ResourceGovernor.RegisterModel` | swamp-engine/src/model_registry.rs:59-76 | the entry is replaced and starts with no sessions, and the invariant holds on if and only if no VRAM model is replaced while in use |
| `Governor.Classify` | swamp-engine/src/governor.rs:351-369 | a session is interactive exactly while fewer than 5 tokens are processed, or later at intervals from 50 up to 1000 milliseconds for a prompt of fewer than 512; otherwise batch |
| `Governor.AdmissionExact` | swamp-engine/src/governor.rs:187-212 | an interactive size is admitted if and only if times the budget it is at most the free VRAM times the budget beyond the safe headroom, a batch one if twice it is, none below that headroom, a cognitive one if under 500 million |
| `Governor.AdmittedFits` | swamp-engine/src/governor.rs:187-212 | what is admitted fits beside what is in use, for every budget and class |
| `Governor.HeadroomStaysFree` | swamp-engine/src/governor.rs:187-212 | an admitted size takes at most the free VRAM's share of the budget beyond the safe headroom |
| `Governor.AdmissionMonotone` | swamp-engine/src/governor.rs:187-212 | more budget, less VRAM in use or a smaller model never turn an admission into a refusal |
| `Governor.ResourceGovernor.TotalVramActive` | swamp-engine/src/model_registry.rs:110-115 | the sum over the entries in any order |
| `Governor.ResourceGovernor.RegisterSession` | swamp-engine/src/governor.rs:121-160 | admitted exactly when `can_admit` says so, with a fresh id; counts stay equal to live sessions; VRAM in use grows by exactly the estimate of an idle VRAM model, and stays within capacity when the stated size covers that |
| `Governor.ResourceGovernor.UnregisterSession` | swamp-engine/src/governor.rs:162-167 | exactly that session goes, and the invariants stay |
| `Governor.ResourceGovernor.EvictStaleSessions` | swamp-engine/src/governor.rs:280-290 | exactly the sessions idle for more than 30 seconds go, and the invariants stay |
| `Governor.CapacityExact` | swamp-engine/src/governor.rs:121-212 | an admitted session leaves VRAM in use within capacity if and only if what it brings into use fits beside what was |
| `Governor.UnderstatedSize` | swamp-engine/src/governor.rs:187-212 | whenever an idle model is too large for what is free, stating size 0 is admitted and takes VRAM in use past the capacity |
| `Governor.BatchYieldsFirst` | swamp-engine/src/governor.rs:307-321 | batch sessions in order of arrival, then interactive ones in order of arrival, never cognitive ones |
| `Streaming.HyperStream.AcquireWriteSlot` | swamp-gpu/src/streaming/triple_buffer.rs:65-75 | the first free slot from the one written last, and none exactly when no slot is free |
| `Streaming.HyperStream.UploadSlot` | swamp-gpu/src/streaming/transfer.rs:99-162 | the first free slot from the one written last is taken, with the next timeline value: ready after a success, and left staging for good after a failure; nothing changes when the data does not fit or no slot is free |
| `Streaming.HyperStream.PrefetchLayer` | swamp-engine/src/streamer.rs:106-127 | the same of a tensor that exists and fits; it joins the end of the queue exactly on a success; no queued slot is rewritten |
| `Streaming.HyperStream.WaitForLayer` | swamp-engine/src/streamer.rs:175-199 | the tensor's record leaves and its slot is freed either way; a GPU decision names a slot that is already free |
| `Streaming.HyperStream.ReleasePending` | swamp-engine/src/streamer.rs:208-213 | the queue empties, slots left staging stay so and every other is free |
| `Streaming.HyperStream.SlotsAreConserved` | swamp-gpu/src/streaming/triple_buffer.rs:65-98 | queued, free and stuck slots make three in every state |
| `Streaming.DeliversExact` | swamp-gpu/src/streaming/transfer.rs:105-145 | all pending copies fill their slots with their own data if and only if what is staged begins with each one's data |
| `Streaming.MakeElsewhere` | swamp-gpu/src/streaming/transfer.rs:117-145 | a copy changes no other slot, and of its own only the first bytes |
| `Streaming.SubmittedArrives` | swamp-gpu/src/streaming/transfer.rs:95-162 | a submitted upload becomes pending, and once all copies are made its slot begins with its data, whatever was pending before; a failed one submits nothing |
| `Streaming.UploadSafeExact` | swamp-gpu/src/streaming/transfer.rs:95-162 | where all pending copies are right, an upload, submitted or failed after staging, leaves them right if and only if each agrees with the new data as far as both go |
| `Streaming.RunDeliversExact` | swamp-gpu/src/streaming/transfer.rs:95-162 | over every run of uploads and copies, all copies are right at every moment, and each one made fills its slot with its own data, if and only if each upload agrees with the copies then pending |
| `Sorting.SortBySorts` | swamp-engine/src/ace/homology.rs:86-88 | the sort gives an ascending permutation |
| `Sorting.SortByStable` | swamp-engine/src/governor.rs:311-315 | elements of equal key keep their order |

## Left out

- KvCache.PagedKVCache.EnsurePagesHotF32: nothing is claimed of residency in a zone where neither the range's share leaves seven pages of the limit nor all its pages fit the limit; `ResidencyExact` shows that nothing can be for every state.
- KvCache.PagedKVCache.EnsureForAttention: the claim that no byte is lost is for caches where one zone alone evicts; `ClobberExact` shows that otherwise some run loses bytes.
- KvPages.SaveAt: one page at a time; the source alternates blocks of the key and the value page, which are different buffers.
- Prefill.PrefillBatch: uses a store whose reads return what was last stored, because `save_at` does not refresh FP32 copies (`PrefillSees`); the GPU path is not modelled.
- Softmax.KernelSumsToOne: for a mass in one element `KernelSumExact` says when the sum is one; in a vector lane the kernel's output is 0.
- Streaming.HyperStream.UploadSlot: device calls succeed or fail together; the data in the staging buffer and in the slots is in `Device`, beside the slot states.
- KvCache.PagedKVCache.SaveAt: works on copies of the page's two buffers and stores them back, key first, where the source alternates heads of both.
- KvCache.PagedKVCache.Save: takes the current position as an argument; the counter behind it is not modelled.
- Zone offsets take each zone's reserved capacity to be the number of pages asked for; an allocator may reserve more.
- f16 and float rounding, exp, trigonometry and NaN: operations are parameters or reals, similarities are real numbers.
- Attention is one head; heads are independent and run in parallel over disjoint outputs. `attention_tracked` and `attention_sparse_q4` are not modelled.
- Vector variants of the Q4_K kernels, whose element order and scaling differ from the scalar form; prefetch hints.
- `build_vietoris_rips`, `fold`, `intersect`, `warp`, `expand`, `compress` of the concept graphs.
- `generate_batch`, row partitioning in `linear.rs`, and `speculate`: work split over disjoint outputs, and sampling.
- The GGUF reader, the shard writer and reader, the arena allocator and tensor layouts: length-prefixed decoding and index arithmetic of the kind proved in `DraftFile` and `MixedRadix`. The hybrid clock, whose two atomics give no strict order.
- AIMD ramp, power, thermal and swap policies, cognitive worker tokens, HTTP, metrics, Lua and tokenizer glue.
- Timings in stage results; a request list or stage list that is empty returns no answers before any thread starts.
- Raw allocation and freeing of page buffers, file errors that end in a panic, and the atomic rename of the draft file.
