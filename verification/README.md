# Verified model of the proxy's cache core

The proxy keeps query responses in an S3-FIFO cache: a map of live entries
beside a Small queue, a Main queue, a bounded ghost queue with its set,
per-entry frequency counters capped at 3, a running byte counter and eviction
statistics. Removal is lazy, so stale nodes and repeated hashes are ordinary
queue contents. This project models that store with its fields updated in
place, and around it the virtual-clock replay that measures hit rates,
request coalescing, the batch runner, the audit ring, the adaptive timeout,
query normalization and the day count behind report ages. It proves what holds
on every run of each of them.

## How it is organised

| file | content |
|---|---|
| `Basics.dfy` | options, sums over maps, multiset facts |
| `Store.dfy` | the store as a value; every public operation as a function; runs as lists of operations |
| `CacheStore.dfy` | the store as a class with the queue loops; each method refines a function of `Store.dfy` |
| `Eviction.dfy` | which node an eviction takes, and exactly when it takes none |
| `Invariants.dfy` | what every operation keeps; capacity, bytes, ghosts on every run |
| `Documents.dfy` | a lookup returns what was last stored, against a plain map |
| `Ghosting.dfy` | the ghost queue: what enters it, what leaves it, how long a victim is remembered |
| `Statistics.dfy` | what each counter counts, which spellings are mapped, what resets and bulk loads leave |
| `Memory.dfy`, `Enforcement.dfy` | the memory cap on admission, and under `enforce_memory_limit` |
| `Residue.dfy` | what a draining loop cannot take, told in advance from the queues |
| `Targets.dfy`, `Warming.dfy` | how many entries `evict_smart` removes; when warming evicts nothing |
| `Scans.dfy` | runs without lazy removals: exact queues, exact ghosts, scan resistance |
| `Conservation.dfy`, `TwoTier.dfy` | every entry accounted for once; two-tier lookup simulates one-tier lookup |
| `Limits.dfy` | what the entry limit and the per-upstream limit bound, and what they do not |
| `Sweep.dfy`, `Tallies.dfy`, `Traces.dfy` | the replay: TTL, mutations, delayed invalidations, bounded staleness; what it counts and serves; traces on which it misjudges |
| `Coalesce.dfy`, `Batch.dfy` | two concurrent protocols under every interleaving |
| `Rings.dfy`, `Audit.dfy`, `Adaptive.dfy` | ring buffers against an unbounded log; nearest-rank percentiles |
| `CivilDate.dfy`, `Normalize.dfy` | the day formula against the Gregorian calendar; canonical query keys |

The eviction functions in `Store.dfy` are closed forms. A scan of a queue ends
at its first node that is live and either cold or already met (meeting a node
resets its counter), and everything else follows from that index. The loops are
in the class and are proved equal to the closed forms.

Operations that pick entries by iterating a hash map (per-upstream eviction,
expiry, filtered eviction) carry the picked list as an argument. The invariants
hold for every list; the class methods prove which lists the code can pick.

## What the code does that its comments do not say

- `enforce_memory_limit` is described as evicting until memory is under the cap. It stops at the first scan that evicts nothing, so one call can fall short. `EnforcementFallsShortIff` gives the exact states, `ShortfallIsReachable` a run that ends in one, `EnforcingTwiceSuffices` the remedy. The engine ticker calls it once per cap change (src/engine/mod.rs:559-563).
- `evict_smart` can miss its target by one, for the same reason (`EvictSmartDelivers`, `TargetMissIsReachable`).
- `warmup` stops at the entry limit to avoid inserting what it then evicts. Stale nodes count against the queues and not against that limit, so it can still do so (`WarmupEvictsNothingIff`, `WarmupCycleIsReachable`); where every node is live it does not (`CleanWarmupEvictsNothing`).
- Updating a live key is not an admission and may leave the store above its cap (`InsertExceedsCapIff`, `UpdateExceedsCapIsReachable`). Restoring a live key is one, and never does (`RestoreWithinMemory`).
- The replay stamps entries by the exact text of a query, while the store keys them by its normal form. A second spelling of a key is judged by its own last fetch, not by the entry's (`EveryVerdictRightIff`, `RealSpellingsHideStaleness`). A query that changes its cluster is compared with a version of the wrong one (`TwoClustersHealTwice`).
- `set_max_entries` does not resize the queues. The count bound is the capacity given at construction (`EveryRunWithinCapacity`), so a new limit bounds the entries exactly when it is not below that (`EntryLimitHoldsIff`).
- The per-upstream limit is said to keep any upstream from having more entries. Limit zero still lets one in (`UpstreamLimitHoldsIff`), and bulk loads do not look at it (`WarmupIgnoresLimit`); otherwise it holds on every run (`UpstreamsStayWithin`).
- The batch module comment says `complete` is false when fail-fast aborts. That holds in the sequential branch only; the parallel branch leaves it true (`BatchCanAbortIff`, `AbortedBatchClaimsComplete`, `SequentialFailFastIncomplete`).
- The day formula in `parse_iso8601_hours` adds `day` where the algorithm it names adds `day - 1`, so every stamp is a day late and every reported age a day short (`AnchorIsOneDayAhead`, `ReportedAgeIsADayShort`). It also counts 0000-02-29 and 0000-03-01 as one day (`NextDayIsOneMoreIff`).

## Model

| member | source | states |
|---|---|---|
| `CacheStores.CacheStore.constructor` | src/proxy/cache.rs:167-191 | a new store is empty, with Small a tenth of the entries, at least one, Main the rest, and a ghost queue as long as the store |
| `CacheStores.CacheStore.TrackedInsert` | src/proxy/cache.rs:394-410 | storing moves the byte counter by the new size less the size replaced |
| `CacheStores.CacheStore.TrackedRemove` | src/proxy/cache.rs:416-439 | removal takes the entry, its bytes and the mapping of its own spelling, and nothing else; queue nodes stay |
| `CacheStores.CacheStore.AddGhost` | src/proxy/cache.rs:611-619 | the oldest ghosts leave queue and set until one more fits, then the hash joins both |
| `CacheStores.CacheStore.ReadAndResetFreq` | src/proxy/cache.rs:602-608 | returns the counter of a live hash, zero for a dead one, and leaves it zero |
| `CacheStores.CacheStore.MeetSmallHead` | src/proxy/cache.rs:545-570 | a Small head is evicted when live and cold, promoted when live and hot, dropped when stale; unless promoted it becomes a ghost |
| `CacheStores.CacheStore.ScanSmallQueue` | src/proxy/cache.rs:539-572 | the loop evicts iff some node is live and cold or repeated, promotes exactly the live nodes before it, and leaves the closed-form queues, map and ghosts |
| `CacheStores.CacheStore.EvictFromSmall` | src/proxy/cache.rs:539-572 | the Small scan with its promotion count equals its closed form |
| `CacheStores.CacheStore.MeetMainHead` | src/proxy/cache.rs:583-597 | a Main head is evicted when live and cold, cooled and requeued when hot, dropped when stale |
| `CacheStores.CacheStore.EvictFromMain` | src/proxy/cache.rs:578-599 | the Main scan equals its closed form: hot nodes cooled and requeued in order, stale ones dropped, the first cold or repeated live one evicted |
| `CacheStores.CacheStore.EvictOne` | src/proxy/cache.rs:501-532 | Small first, Main when Small yields nothing, for both identical entry points |
| `CacheStores.CacheStore.Drain` | src/proxy/cache.rs:460-483 | the loop evicts while over the limit, counts by queue, and stops at the first scan that evicts nothing |
| `CacheStores.CacheStore.EnqueueHash` | src/proxy/cache.rs:449-458 | a remembered hash goes to Main and is forgotten as a ghost, any other goes to Small |
| `CacheStores.CacheStore.ShrinkQueues` | src/proxy/cache.rs:460-483 | the count loop, then the memory loop when there is a cap |
| `CacheStores.CacheStore.Admit` | src/proxy/cache.rs:448-497 | enqueue, shrink, and charge ghost hit and evictions once |
| `CacheStores.CacheStore.EnforceMemoryLimit` | src/proxy/cache.rs:369-389 | the enforcement call as a function of the old store; it returns what it adds to `total` |
| `CacheStores.CacheStore.BumpEntry` | src/proxy/cache.rs:623-630 | a hit raises the counter by one up to 3 |
| `CacheStores.CacheStore.Get` | src/proxy/cache.rs:770-784 | the lookup returns the live entry found, bumps it and counts the hit by tier |
| `CacheStores.CacheStore.GetTwoTier` | src/proxy/cache.rs:787-818 | mapped spelling first if its target is live, else the normal form, recording the spelling |
| `CacheStores.CacheStore.GetVerified` | src/proxy/cache.rs:867-891 | returns an entry exactly when it is live and sound; a corrupt one is removed and counted |
| `CacheStores.CacheStore.GetByHash` | src/proxy/cache.rs:894-900 | returns and bumps the live entry of a hash, counting no hit |
| `CacheStores.CacheStore.SetMaxEntries` | src/proxy/cache.rs:274-281 | zero is refused; otherwise only the entry limit moves, not the queues |
| `CacheStores.CacheStore.SetMaxMemory` | src/proxy/cache.rs:346-348 | only the cap moves |
| `CacheStores.CacheStore.SetUpstreamLimit` | src/proxy/cache.rs:261-263 | only the per-upstream limit moves |
| `CacheStores.CacheStore.OldestOf` | src/proxy/cache.rs:1537-1546 | lists the oldest entries of an upstream, oldest first, as many as asked or exist |
| `CacheStores.CacheStore.EvictFromUpstream` | src/proxy/cache.rs:1528-1578 | removes exactly those, counts them once as `oldest` and in `total` |
| `CacheStores.CacheStore.EnforceUpstreamLimit` | src/proxy/cache.rs:943-955 | at the limit the oldest entry of that upstream leaves and is counted; below it nothing does |
| `CacheStores.CacheStore.PutEntry` | src/proxy/cache.rs:957-999 | store, map the spelling when matching is on, admit only a new hash |
| `CacheStores.CacheStore.Insert` | src/proxy/cache.rs:929-1021 | limit, store, admit; at the upstream limit exactly the oldest entry of the upstream leaves first |
| `CacheStores.CacheStore.InsertByHash` | src/proxy/cache.rs:1027-1093 | the same under a given hash, recording no spelling |
| `CacheStores.CacheStore.Warmup` | src/proxy/cache.rs:1120-1163 | stores and admits in order, skipping refused items, until the entry limit; returns how many it stored |
| `CacheStores.CacheStore.Restore` | src/proxy/cache.rs:1907-1966 | stores and admits every loaded entry, already live or not, until the entry limit; returns how many |
| `CacheStores.CacheStore.ExtendTtl` | src/proxy/cache.rs:1198-1216 | a live entry is re-stored with a new time, one more extension and counter one |
| `CacheStores.CacheStore.Remove` | src/proxy/cache.rs:1221-1240 | lazy removal: map entry, bytes and two spellings go, queues stay |
| `CacheStores.CacheStore.Clear` | src/proxy/cache.rs:1255-1279 | map, mappings, bytes, queues and ghosts are emptied; limits, hit counters and statistics stay |
| `CacheStores.CacheStore.UpdateFingerprint` | src/proxy/cache.rs:673-701 | empties the store exactly when a non-zero fingerprint changes |
| `CacheStores.CacheStore.EvictWhere` | src/proxy/cache.rs:1623-1687 | removes the selected entries, all of them or the first so many in map order, and counts each once; also the loops at 1488-1511 and 1817-1837 |
| `CacheStores.CacheStore.ScanTimes` | src/proxy/cache.rs:1461-1474 | up to n scans, a fruitless one not ending the loop; returns the entries lost |
| `CacheStores.CacheStore.EvictSmart` | src/proxy/cache.rs:1434-1482 | expired entries first, scans for the rest, `expired` and `total` charged with what left |
| `CacheStores.CacheStore.MemoryUsage` | src/proxy/cache.rs:1771-1777 | recomputes the sum of live entry sizes |
| `Eviction.VictimIsFirstOnTour` | src/proxy/cache.rs:501-599 | in any state the victim is the first node of Small, Main, Small that is live and cold or already met; it is charged to Small iff the tour ends there; exactly the entries met before it are cooled |
| `Eviction.EvictsNothingIff` | src/proxy/cache.rs:501-599 | an eviction takes nothing iff Small has no live node and every live Main node is hot and unrepeated |
| `Eviction.NothingEvictedLeavesCold` | src/proxy/cache.rs:539-608 | after a fruitless scan Small is empty and Main holds the live nodes, distinct and cold |
| `Eviction.VictimWhenDistinct` | src/proxy/cache.rs:501-599 | with distinct hashes: first cold Small node, else first cold Main node, else first live Small node, else none |
| `Eviction.ScanShrinks` | src/proxy/cache.rs:501-599 | a scan removes exactly its victim from the map, and nodes drop whenever it has one |
| `Invariants.EvictOneKeeps` | src/proxy/cache.rs:501-619 | an eviction keeps coverage, exact bytes, ghost bounds, no live ghost, capped counters; surviving entries change at most their counter |
| `Invariants.ColdNodeYields` | src/proxy/cache.rs:501-599 | one live cold hash guarantees the next eviction succeeds |
| `Invariants.CountLoopSucceeds` | src/proxy/cache.rs:460-469 | after an admission the capacity loop ends within capacity, its early break never taken above it |
| `Invariants.AdmitKeeps` | src/proxy/cache.rs:448-497 | admitting a just-stored cold hash restores the whole invariant, whatever stale nodes the queues hold |
| `Invariants.StepKeepsInv` | src/proxy/cache.rs:369-1966 | every public operation keeps the invariant, and only the setters move limits |
| `Invariants.RunKeepsInv` | src/proxy/cache.rs:369-1966 | so does every run |
| `Invariants.NewStoreInv` | src/proxy/cache.rs:44-57 | a new store satisfies it, with capacity max(1, max_entries) |
| `Invariants.EveryRunWithinCapacity` | src/proxy/cache.rs:44-57 | on every run nodes and live entries are at most max(1, construction-time max_entries), bytes equal the sum of live sizes, so subtracting an entry never underflows |
| `Documents.LastWriterWins` | src/proxy/cache.rs:929-1216 | after every run each live entry has the body, size, upstream, context, text, times and extensions last written under its hash by an insert, a warmup, a restore or an extension, as a plain map records them |
| `Documents.LookupReturnsLastWritten` | src/proxy/cache.rs:770-818 | from a new store, after every run, a lookup answers iff the key of its query is live, and with the document last written under that key, with one tier or two |
| `Documents.InsertIsRead` | src/proxy/cache.rs:910-1021 | what is inserted with a node and room to spare, or over a live key, is what the next lookup returns |
| `Documents.LookupsCount` | src/proxy/cache.rs:623-630 | n lookups raise an entry's counter by n, up to three, and touch no other entry |
| `Documents.OtherLookupsCount` | src/proxy/cache.rs:867-900 | so does a verified lookup of a sound entry, and one by hash |
| `Documents.CountersStart` | src/proxy/cache.rs:1198-1216 | an extension leaves the counter at one, a fresh store at zero |
| `Ghosting.AddGhostsWindow` | src/proxy/cache.rs:611-619 | after any list of hashes the ghost queue is the last ghost_capacity of what it held and what was added |
| `Ghosting.EvictionBuries` | src/proxy/cache.rs:539-572 | an eviction adds the stale nodes it meets in Small, and its victim if that came from Small, in order, and counts as promoted what it passed alive |
| `Ghosting.StepFollows` | src/proxy/cache.rs:448-619 | what every operation buries, takes back or wipes, in order, decides its ghost queue |
| `Ghosting.RunFollows` | src/proxy/cache.rs:448-619 | and so over every run |
| `Ghosting.StaysIff` | src/proxy/cache.rs:611-619 | a ghost stays in the queue iff the ghosts buried after it and not taken back never filled the queue by themselves |
| `Ghosting.GhostRememberedIff` | src/proxy/cache.rs:448-619 | on runs without lazy removals the same for membership in the ghost set |
| `Ghosting.VictimRememberedIff` | src/proxy/cache.rs:448-619 | where no ghost is taken back, a victim of Small is remembered iff fewer than ghost_capacity others followed it |
| `Ghosting.RaisedMakeRoom` | src/proxy/cache.rs:448-456 | with ghosts taken back in between, more may follow it |
| `Ghosting.RememberedEntersMain` | src/proxy/cache.rs:448-458 | a remembered hash stored again, with room, goes to the tail of Main and counts a ghost hit; any other goes to Small |
| `Memory.PressureLoopSucceeds` | src/proxy/cache.rs:471-483 | with one cold hash and the rest within the cap, the pressure loop reaches the cap |
| `Memory.NewKeyWithinMemory` | src/proxy/cache.rs:957-999 | storing a new hash from within the cap ends within the cap |
| `Memory.InsertExceedsCapIff` | src/proxy/cache.rs:929-1021 | from within the cap, `insert` ends above it iff its key is still live after the upstream limit and the entry grows by more than the room left |
| `Memory.UpdateExceedsCapIsReachable` | src/proxy/cache.rs:929-1021 | a run of two insertions of one key from a new store that ends above the cap |
| `Memory.RestoreWithinMemory` | src/proxy/cache.rs:1907-1966 | restoring from within the cap ends within the cap, whatever is loaded |
| `Memory.WarmupWithinMemory` | src/proxy/cache.rs:1120-1163 | so does warming that enlarges no live entry |
| `Memory.InsertWithinMemory` | src/proxy/cache.rs:929-1021 | the whole of `insert`, upstream limit included, for a key that is new |
| `Memory.ModestRunsFit` | src/proxy/cache.rs:448-497 | a store within its cap stays there on every run that neither moves the cap nor enlarges a live entry, bulk loads included |
| `Enforcement.EnforcingTwiceSuffices` | src/proxy/cache.rs:369-389 | from every reachable state a second call in a row ends at or under the cap |
| `Enforcement.LoopEndsUnderOrCold` | src/proxy/cache.rs:376-383 | the loop ends under the cap or with everything cold |
| `Enforcement.AllColdDrains` | src/proxy/cache.rs:376-383 | from an all-cold state the loop reaches the cap |
| `Residue.ScanStopsInSmall` | src/proxy/cache.rs:539-572 | on Small and Main as one list of nodes, a scan that stops in Small drops a prefix and sends its live nodes to the back, cooled |
| `Residue.ScanStopsInMain` | src/proxy/cache.rs:578-599 | so does a scan that goes through Small and stops in Main |
| `Residue.ScanKeepsStranded` | src/proxy/cache.rs:501-599 | an eviction changes nothing, either way, about which hashes draining will strand |
| `Residue.NothingTakenStrandsAll` | src/proxy/cache.rs:501-599 | where a scan takes nothing, exactly the live hashes are stranded |
| `Enforcement.OverfullStep` | src/proxy/cache.rs:376-383 | each eviction preserves, both ways, the condition for ending above the cap |
| `Enforcement.LoopEndsOverIff` | src/proxy/cache.rs:376-383 | the loop ends above the cap iff it strands more than the cap, and what it strands is then all that is left |
| `Enforcement.EnforcementFallsShortIff` | src/proxy/cache.rs:364-389 | in any state, stale and repeated nodes included, one call ends above the cap iff the nodes can be cut so that live hashes before the cut are cold or repeated there, all others are hot with a single node, in Main, and those others exceed the cap; they are what it leaves |
| `Enforcement.OneNodeFallsShortIff` | src/proxy/cache.rs:364-389 | with one node per live hash: iff Small holds nothing hot, no cold Main node stands behind a hot one, and the hot entries exceed the cap |
| `Enforcement.ShortfallIsReachable` | src/proxy/cache.rs:364-389 | insert, evict, insert, look up, lower the cap: a run from a new store that ends in such a state |
| `Targets.TimesDeliver` | src/proxy/cache.rs:1461-1474 | in any state n scans remove n entries or all there are, or one less; at most one scan is wasted |
| `Targets.TimesDeliverExactly` | src/proxy/cache.rs:1461-1474 | in any state n scans remove n entries or all there are, one less iff draining strands some hashes, n reaches into them, and n are live |
| `Targets.AllColdTimes` | src/proxy/cache.rs:1461-1474 | from an all-cold state no scan is wasted |
| `Targets.EvictSmartDelivers` | src/proxy/cache.rs:1434-1482 | removes its target or all there is, one less exactly when its second phase wastes a scan on what the first leaves; never less when enough entries have expired |
| `Targets.TargetMissIsReachable` | src/proxy/cache.rs:1434-1482 | a run from a new store after which `evict_smart(1)` finds one entry and removes none |
| `Warming.NewKeyEvictsNothingIff` | src/proxy/cache.rs:448-497 | storing a new hash evicts nothing iff a node is to spare and, under a cap, room for its bytes |
| `Warming.WarmupEvictsNothingIff` | src/proxy/cache.rs:1116-1163 | warming evicts nothing iff its items, stored in a plain map, find a node and room each |
| `Warming.UncappedWarmupEvictsNothingIff` | src/proxy/cache.rs:1116-1163 | without a cap: iff nodes plus hashes added stay within capacity |
| `Warming.CleanWarmupEvictsNothing` | src/proxy/cache.rs:1116-1163 | where every node is live and the limit is within capacity, warming evicts nothing |
| `Warming.WarmupCycleIsReachable` | src/proxy/cache.rs:1116-1163 | a run after which warming one entry, below the entry limit, evicts it at once |
| `Limits.EntryLimitHoldsIff` | src/proxy/cache.rs:274-281 | with the limit set to n, every run from a store built for m entries ends with at most n iff n is at least m |
| `Limits.UpstreamsStayWithin` | src/proxy/cache.rs:257-263 | on every run of insertions that evict the oldest, lookups, removals and evictions, each upstream stays within max(1, limit) |
| `Limits.UpstreamLimitHoldsIff` | src/proxy/cache.rs:257-263 | such runs from a new store keep every upstream within the limit iff it is not zero |
| `Limits.ZeroLimitAdmitsOne` | src/proxy/cache.rs:943-955 | one insertion under limit zero leaves one entry |
| `Limits.WarmupIgnoresLimit` | src/proxy/cache.rs:1120-1163 | warming two entries of one upstream under limit one leaves two |
| `Scans.EagerRunStaysClean` | src/proxy/cache.rs:448-619 | without lazy removals queue nodes are exactly the live hashes, once each, and the ghost queue lists the ghost set once |
| `Scans.FreshEagerRunIsExact` | src/proxy/cache.rs:448-619 | the same from a new store, element by element, with the ghost bound |
| `Scans.EagerRunFallsShortIff` | src/proxy/cache.rs:364-389 | on such runs the exact condition of one insufficient enforcement call holds outright |
| `Scans.SmallAbsorbs` | src/proxy/cache.rs:539-572 | a Small queue ending in a cold node supplies the victim and Main is untouched |
| `Scans.ScanStep` | src/proxy/cache.rs:448-469 | one lookup or one insertion outside the ghost set leaves Main's nodes and entries and its eviction count alone |
| `Scans.ScanResistance` | src/proxy/cache.rs:448-572 | no run of such steps evicts anything held in Main |
| `Conservation.StepBalances` | src/proxy/cache.rs:384-388 | each operation's admissions equal the change in live entries, counted evictions, integrity evictions and uncounted removals |
| `Conservation.RunConserves` | src/proxy/cache.rs:485-496 | over every run without a wipe: start + admitted = live + growth of `total` + integrity evictions + explicit and corrupted removals |
| `TwoTier.GetSimulates` | src/proxy/cache.rs:770-818 | with exact mappings a two-tier lookup answers and bumps as the one-tier lookup does, and counts one hit iff it answers |
| `TwoTier.StepSimulates` | src/proxy/cache.rs:416-439 | every operation commutes with forgetting the mappings, and keeps them exact |
| `TwoTier.StepHits` | src/proxy/cache.rs:770-818 | each step adds one hit iff it is an answered lookup, and the answers agree |
| `TwoTier.RunSimulates` | src/proxy/cache.rs:770-1021 | over every run the two stores agree on map, queues, ghosts, bytes and statistics, and exact plus normalized hits count the answered lookups |
| `Statistics.OneTierHitsAreExact` | src/proxy/cache.rs:770-784 | with one tier every answered lookup is one exact hit |
| `Statistics.SpellingIsLearnt` | src/proxy/cache.rs:787-818 | with two, the first answer to an unmapped spelling is a normalized hit that maps it, the next an exact hit |
| `Statistics.MissLeavesStore` | src/proxy/cache.rs:787-818 | a lookup that finds nothing changes nothing |
| `Statistics.UpdateMapsSpelling` | src/proxy/cache.rs:990-995 | an update maps its spelling, so that the next lookup under it is an exact hit |
| `Statistics.InsertMapsSpelling` | src/proxy/cache.rs:990-995 | so does an insertion that evicts nothing |
| `Statistics.EvictionsUnmap` | src/proxy/cache.rs:416-439 | every way of evicting unmaps exactly the spellings its victims were stored under |
| `Statistics.RemoveForgets` | src/proxy/cache.rs:1221-1240 | `remove` leaves neither entry nor given spelling, and the queues alone |
| `Statistics.InsertCharges` | src/proxy/cache.rs:943-999 | an insertion charges `per_upstream`, `oldest`, the queues and the ghost hits with exactly what happened |
| `Statistics.EvictCharges` | src/proxy/cache.rs:1488-1687 | removals are charged to expiry, age or the total, and corrupt ones to nothing |
| `Statistics.SmartCharges` | src/proxy/cache.rs:1434-1482 | `evict_smart` charges its first phase to expiry and everything that left to the total |
| `Statistics.VerifiedCharges` | src/proxy/cache.rs:867-891 | one integrity failure and one removal exactly when a corrupt entry is found |
| `Statistics.ClearedIsNew` | src/proxy/cache.rs:1255-1279 | a cleared store is a new store with its limits and counters kept |
| `Statistics.FingerprintClearsIff` | src/proxy/cache.rs:673-701 | the fingerprint is taken over; it clears the store iff it replaces another |
| `Statistics.EntryLimitStaysPositive` | src/proxy/cache.rs:274-281 | no run sets the entry limit to zero |
| `Statistics.SettersSet` | src/proxy/cache.rs:261-348 | the other setters set their limit and nothing else |
| `Statistics.FullTakesNothing` | src/proxy/cache.rs:1130-1133 | a store at its entry limit takes nothing from a bulk load |
| `Statistics.WarmupConcat` | src/proxy/cache.rs:1120-1163 | warming in two calls is warming in one, counts included |
| `Statistics.WarmupOne` | src/proxy/cache.rs:1120-1163 | one item is passed over without a response, and otherwise stored as an insertion by hash without upstream limit |
| `Statistics.RestoreConcat` | src/proxy/cache.rs:1907-1966 | restoring in two calls is restoring in one |
| `Sweep.RunSweep` | src/bin/hitrate_bench.rs:936-1047 | the event loop over a store updated in place computes the counters of the replay function |
| `Sweep.Play` | src/bin/hitrate_bench.rs:936-1047 | one event: clock, invalidations, lookup, fetch, bookkeeping |
| `Sweep.Serve` | src/bin/hitrate_bench.rs:957-1017 | the branches of the loop body reach the verdict, and fetch unless it is a hit |
| `Sweep.FireDue` | src/bin/hitrate_bench.rs:938-950 | fires the due prefix of the queue, never lowering a healed version |
| `Sweep.FireKeeps` | src/bin/hitrate_bench.rs:938-950 | afterwards nothing is due, the queue is the unfired rest of the mutation log, and each cluster is healed up to its version when it last fired |
| `Sweep.HealedMoves` | src/bin/hitrate_bench.rs:979-993 | a fetch is behind the healed version iff some invalidation of its cluster fired after a mutation that superseded it |
| `Sweep.UnhealedIsYoung` | src/bin/hitrate_bench.rs:974-1003 | what is not healed has been superseded only by mutations younger than the CDC delay |
| `Sweep.HealedWasOutdated` | src/bin/hitrate_bench.rs:979-993 | what is healed was superseded |
| `Sweep.JudgedByOwnFetch` | src/bin/hitrate_bench.rs:957-1003 | a lookup that finds something is expired, healed, stale or fresh exactly as the last fetch under its own spelling deserves |
| `Sweep.UnfetchedSpellingLooksFresh` | src/bin/hitrate_bench.rs:957-1003 | a spelling that never fetched always counts as a fresh hit |
| `Sweep.VerdictRightIff` | src/bin/hitrate_bench.rs:957-1003 | a verdict is what the entry deserves iff, for a spelling that has fetched, the first fault of its fetch is the entry's too, and otherwise iff the entry has none |
| `Sweep.OlderIsStricter` | src/bin/hitrate_bench.rs:957-1003 | an older fetch of the same cluster is expired, healed or outdated if a newer one is, so a spelling that has fetched errs only on the strict side |
| `Sweep.SweepKeeps` | src/bin/hitrate_bench.rs:936-1047 | versions, stamps, queue and healing agree with the true history after every event of any trace |
| `Sweep.EveryEventJudgedTruly` | src/bin/hitrate_bench.rs:936-1047 | on every replay of any trace, an event is a miss iff its key is not in the store; one whose entry was last fetched for its query and cluster is expired iff past the TTL, healed iff an invalidation fired after it was superseded, stale iff superseded, and then only by mutations younger than the delay |
| `Sweep.EveryVerdictRightIff` | src/bin/hitrate_bench.rs:936-1047 | the same condition for every event of every replay whose fetches were for its cluster |
| `Sweep.OneSpellingJudgedTruly` | src/bin/hitrate_bench.rs:936-1047 | so is every event of a trace with one spelling and cluster per key |
| `Traces.SpellingsHideStaleness` | src/bin/hitrate_bench.rs:952-957 | two spellings of one key: an outdated entry is served and counted as fresh |
| `Traces.RealSpellingsHideStaleness` | src/bin/hitrate_bench.rs:952-957 | such spellings exist under the normalizer: a query with and without a leading space |
| `Traces.TwoClustersHealTwice` | src/bin/hitrate_bench.rs:979-993 | one query under two clusters: healed twice with no mutation in between |
| `Sweep.HealedAgainNeedsMutation` | src/bin/hitrate_bench.rs:979-993 | two healed misses of one query, the later on a fetch for its own cluster, have a mutation of that cluster between them |
| `Sweep.CountersCountVerdicts` | src/bin/hitrate_bench.rs:957-1005 | each counter is the number of verdicts of its kind, and the verdicts cover the events |
| `Sweep.CeilingCountsRepeats` | src/bin/hitrate_bench.rs:1006-1018 | the semantic ceiling counts the misses whose cluster had already been missed on |
| `Tallies.CountersCountFound` | src/bin/hitrate_bench.rs:957-1018 | hits, expired and healed misses together are the events whose key was in the store when they came |
| `Tallies.ClockCountsEvents` | src/bin/hitrate_bench.rs:937-937 | event i happens at (i + 1) times the step |
| `Tallies.MutationPicksFromTrace` | src/bin/hitrate_bench.rs:1037-1046 | an event mutates a cluster iff it draws, and then that of the event so far that the draw picks, its own included |
| `Tallies.ReplayIsRun` | src/bin/hitrate_bench.rs:957-1018 | the store of a replay is that of a run of one lookup per event and one insertion unless it was a hit, so that everything proved of runs holds of it |
| `Tallies.StoreServesLastFetch` | src/bin/hitrate_bench.rs:957-1018 | the store holds, for each key it has, the response of that key's last fetch |
| `Coalesce.RequestCoalescer.constructor` | src/proxy/coalesce.rs:42-46 | nothing in flight |
| `Coalesce.RequestCoalescer.GetOrInsert` | src/proxy/coalesce.rs:53-70 | the first caller leads a new flight, later ones subscribe to it |
| `Coalesce.RequestCoalescer.Complete` | src/proxy/coalesce.rs:75-80 | takes the sender out and broadcasts on it; nothing when there is none |
| `Coalesce.RequestCoalescer.Remove` | src/proxy/coalesce.rs:86-88 | takes the sender out and drops it |
| `Coalesce.ReachableInv` | src/proxy/coalesce.rs:53-88 | every interleaving, with `complete` and `remove` split in two steps each, keeps map, channels, leaders and waiters consistent |
| `Coalesce.OneLeaderPerHash` | src/proxy/coalesce.rs:53-70 | at most one working leader per hash |
| `Coalesce.TakesOwnSender` | src/proxy/coalesce.rs:75-88 | a finishing leader takes out the sender it put in |
| `Coalesce.WaiterHearsItsLeader` | src/proxy/coalesce.rs:53-88 | each waiter has one leader, never a lost one, hears nothing before it finishes, then exactly its result or its closure |
| `Coalesce.ClientBoardsItsHash` | src/proxy/coalesce.rs:53-70 | whoever asked for a hash is, from then on, on a flight that carries it |
| `Coalesce.LeadsIffNobodyWorks` | src/proxy/coalesce.rs:53-70 | an arriving client leads a new flight iff nobody is working on its hash, and else waits for whoever is |
| `Coalesce.WaiterHearsItsQuestion` | src/proxy/coalesce.rs:53-88 | what a waiter hears is the result of a leader that worked on the hash it asked for |
| `Coalesce.ForeignCompletionMisleads` | src/proxy/coalesce.rs:75-80 | a completion by anyone else reaches waiters whose leader is still working |
| `Batch.Validate` | src/proxy/batch.rs:170-191 | accepts exactly non-empty batches within the limit with unique ids; otherwise names the first fault |
| `Batch.ProcessSequentially` | src/proxy/batch.rs:301-334 | the sequential loop, deadline and fail-fast included, as a function of its inputs |
| `Batch.SequentialAnswersAll` | src/proxy/batch.rs:301-334 | without fail-fast and deadline every query gets its own outcome |
| `Batch.SequentialExactly` | src/proxy/batch.rs:301-334 | through any lateness and with or without fail-fast, the loop goes on while everything ran, counts the responses and errors of what it ran, and is complete iff it ran all |
| `Batch.SequentialAnswersRan` | src/proxy/batch.rs:301-334 | with unique ids it answers exactly the queries it ran, each with its own outcome |
| `Batch.SequentialFailFastIncomplete` | src/proxy/batch.rs:322-328 | under fail-fast the response is complete iff nothing failed |
| `Batch.GatherAllAnswers` | src/proxy/batch.rs:281-288 | every id answered, with its own outcome when ids are unique; successes and errors are the numbers of positions answered so |
| `Batch.JoinHandles` | src/proxy/batch.rs:279-300 | the loop over handles, panics and the deadline included |
| `Batch.AnsweredIffReached` | src/proxy/batch.rs:279-300 | a query is answered iff its handle arrived before any timeout, and then with its own outcome |
| `Batch.CompleteIffAllArrived` | src/proxy/batch.rs:279-300 | `complete` iff every handle arrived; without a timeout the counts cover the handles |
| `Batch.CollectCounts` | src/proxy/batch.rs:279-300 | successes are the responses, errors the errors and panics, of the handles awaited before any timeout |
| `Batch.EveryScheduleKeepsInv` | src/proxy/batch.rs:218-275 | every schedule conserves permits, ends tasks with their own outcome, raises the flag only after a failure and skips only after the flag |
| `Batch.ConcurrencyBounded` | src/proxy/batch.rs:220-260 | never more than max_parallel queries run at once |
| `Batch.ScheduleIndependence` | src/proxy/batch.rs:218-334 | without fail-fast every finished schedule gives the sequential response |
| `Batch.FailFastInParallel` | src/proxy/batch.rs:233-290 | a skip implies another query ran and failed; every id is answered; `complete` stays true |
| `Batch.AbortedBatchClaimsComplete` | src/proxy/batch.rs:233-290 | two queries, the first failing, the second skipped, and a response that says it is complete |
| `Batch.BatchCanAbortIff` | src/proxy/batch.rs:220-290 | some schedule skips a query iff there are two or more, a permit, and one that fails; every such response says it is complete |
| `Batch.SchedulesAreShort` | src/proxy/batch.rs:226-275 | no schedule is longer than four moves per query |
| `Batch.NeverStuck` | src/proxy/batch.rs:226-275 | with a permit, every schedule has a continuation after which every task is over |
| `Batch.NoPermitsNoResults` | src/proxy/batch.rs:220-252 | with max_parallel zero no query ever runs |
| `Rings.PushKeeps` | src/proxy/audit.rs:207-222 | one more write keeps ring and log in step through every wrap-around |
| `Rings.EveryHistoryHolds` | src/proxy/audit.rs:207-222 | so after any history of writes and clears, log entry k sits at slot k modulo the slots |
| `Audit.AuditLog.constructor` | src/proxy/audit.rs:186-194 | an empty ring |
| `Audit.AuditLog.Log` | src/proxy/audit.rs:207-222 | grows the ring to capacity, then overwrites the oldest slot |
| `Audit.AuditLog.Recent` | src/proxy/audit.rs:225-248 | the backward walk over the slots |
| `Audit.AuditLog.Clear` | src/proxy/audit.rs:314-318 | ring and write position restart; the lifetime count stays |
| `Audit.NewestAt` | src/proxy/audit.rs:225-248 | the i-th entry returned is the i-th newest of the log |
| `Audit.RecentIsTheLog` | src/proxy/audit.rs:207-248 | after any history `recent(n)` is the newest-first list of the last min(n, capacity, since clear) entries |
| `Adaptive.AdaptiveTimeout.constructor` | src/proxy/adaptive.rs:59-69 | no samples, the initial timeout |
| `Adaptive.AdaptiveTimeout.Record` | src/proxy/adaptive.rs:77-100 | the sample enters the ring; every tenth one recalculates |
| `Adaptive.AdaptiveTimeout.Recalculate` | src/proxy/adaptive.rs:118-145 | with samples, the cached value is the nearest-rank 99th percentile, and the timeout its product with the multiplier cut down to a whole number, or the bound that lies beyond; without, nothing changes |
| `Adaptive.AdaptiveTimeout.Reset` | src/proxy/adaptive.rs:199-209 | back to the initial state |
| `Adaptive.PickedIsNearestRank` | src/proxy/adaptive.rs:118-145 | at least the share of the samples is at most the picked value, less than the share strictly below, for every percentage |
| `Adaptive.NearestRankUnique` | src/proxy/adaptive.rs:148-196 | no other value has that property |
| `Adaptive.TimeoutIsBounded` | src/proxy/adaptive.rs:136-142 | clamping the truncated product gives that timeout |
| `Adaptive.SamplesAreTheWindow` | src/proxy/adaptive.rs:77-100 | the samples are, as a multiset, the last sample_size latencies since the reset |
| `Adaptive.PercentileOfTheWindow` | src/proxy/adaptive.rs:77-145 | the percentile depends on those latencies alone |
| `Adaptive.EveryHistoryReflected` | src/proxy/adaptive.rs:77-145 | after any history of record, recalculate and reset, percentile and timeout are those of the window at the last recalculation since the reset, and the initial ones before any |
| `CivilDate.NextDayIsOneMoreIff` | src/bin/perf_summarize.rs:1912-1915 | from year 0 on the count steps by one per calendar day iff the day is not 0000-02-29 |
| `CivilDate.DifferencesAreDayCounts` | src/bin/perf_summarize.rs:1912-1915 | from year 1 on differences are exact day counts |
| `CivilDate.AnchorIsOneDayAhead` | src/bin/perf_summarize.rs:1912-1915 | the formula is one more than the Unix day count, for every date from year 1 on |
| `CivilDate.EpochIsDayZero` | src/bin/perf_summarize.rs:1912-1915 | 1970-01-01 is day 0 by counting and 1 by the formula |
| `CivilDate.NextSecondIsOneMore` | src/bin/perf_summarize.rs:1915-1915 | a stamp one second later is one second more, across minutes, hours, days and leap days |
| `CivilDate.ReportedAgeIsADayShort` | src/bin/perf_summarize.rs:1904-1918 | through the unsigned cast and the saturating difference, the age reported is the true age less a day, floored at zero, and zero before 1969-12-31 |
| `Normalize.NormalizeQuery` | src/proxy/cache.rs:718-736 | the one-pass loop computes the collapse of the trimmed, lower-cased text |
| `Normalize.NormalJoinsWords` | src/proxy/cache.rs:718-736 | which is the lower-cased words joined by single spaces |
| `Normalize.SameKeyIffSameWords` | src/proxy/cache.rs:718-742 | two queries share a key iff their lower-cased word lists agree |
| `Normalize.NormalIsIdempotent` | src/proxy/cache.rs:718-736 | normalizing twice is normalizing once |

## Left out

- Sweep.EveryEventJudgedTruly: the clock is an exact real number and does not run backwards; the random draws of a mutation are part of the event.
- Adaptive.AdaptiveTimeout.Recalculate: percentages and the multiplier are exact rationals, where the code rounds floating-point products; reversed bounds, on which the code panics, are excluded.
- Audit.AuditLog.Log: capacity zero, on which the code panics, is excluded.
- Normalize.NormalJoinsWords: lower-casing is a parameter applied word by word, assumed idempotent and to map words to words; Unicode case tables are not modelled.
- CivilDate.ReportedAgeIsADayShort: stamps already parsed into fields in range, years 1 to 9999.
- Weak memory and real concurrency inside the store: each public operation is one atomic step.
- Machine integers in the store: counters, sizes and `saturating_add` are unbounded here.
- Hash collisions: a digest is identified with its text.
- Persistence, CDC events, the semantic tier and tracing in `src/proxy/cache.rs`: they do not feed back into the modelled state. `Restore` takes the loaded entries as an argument.
- Entries' freshness, TTL jitter and the snapshot, summary and statistics views: read-only functions of an entry.
- `get_with_hit_type`: the same state change as `get`, with a label.
- The criteria of `evict_filter` (context, text prefix, age): any predicate on entries is allowed instead.
- Liveness of spellings: a removal cleans one spelling's mapping, so others may dangle; only that every mapping is exact is claimed.
- Per-phase, tail and series counters, payload sizes and cost models of the replay.
- Shutdown of the batch semaphore, and per-query timings.
- Filters, statistics and entry builders of the audit log; the remaining percentiles of the timeout statistics use the same index computation.
- Configuration, engine construction, agent registry, embedding providers, servers, SDKs, generators and report rendering.
