# Inner PTE cache of the gem5 x86 TLB

This project models `TLB::InnerCache`, a small secondary cache of page-table
entries that sits behind the x86 TLB of a gem5 build. It maps virtual to
physical addresses. Its capacity is fixed. It evicts the least recently used
unpinned entry. Entries whose access count reaches a threshold are pinned
into a bounded pin set that eviction spares. A phase controller re-tunes the
threshold, and the cache reports accesses, misses and the pinned count to the
TLB's statistics group.

The model has four modules:

- `InnerCacheSpec` (`inner_cache_spec.dfy`): the state as a value `Cache`,
  with the class's four containers (`cache`, `pinnedList`, `accessHistory`,
  `lruTable`), its limits, its LRU counter and the three statistics. Each
  operation of the class is a function from state to state. There is also
  a single-table view (`Entry`) and the invariant `Inv`.
- `InnerCacheProps` (`inner_cache_props.dfy`): what each single operation
  promises, and that each keeps the invariant.
- `InnerCacheLookup` (`inner_cache_lookup.dfy`): what the entry point
  `checkCacheLatency` promises for one lookup and for a sequence of lookups,
  including the two-entry scenario worked through end to end.
- `X86Tlb` (`x86_tlb.dfy`): the imperative classes `TlbStats`,
  `InnerCache` and `Tlb`. Their methods update fields in place. Each
  state-changing `InnerCache` method is proved to change the object exactly as the
  matching `InnerCacheSpec` function does (`Model() == Op(old(Model()))`),
  so everything proved about the functions holds of the object.

`tlb.hh` declares most operations without a body. The behaviour below
follows the header's comments, with the choices listed here:

- A lookup counts one access. On a hit it refreshes the entry's LRU stamp,
  increments its count and tries to pin it.
- On a miss, a stale mapping of the same virtual address is invalidated
  first. Then the miss is counted, one entry is evicted if the cache is
  full, and the new translation is inserted, stamped, counted and offered
  for pinning.
- Every lookup ends with the phase controller.
- `invalidate` unpins the entry and removes it with its access history and
  LRU stamp, so a remapped address starts again from one access. This is a
  policy choice; the header's comments leave it open.
- `evict` takes the unpinned entry with the smallest LRU stamp. When every
  resident entry is pinned, it force-unpins and evicts the least recently
  used pinned entry, so `|cache| <= cacheSize` always holds. On an empty
  cache (capacity 0) it does nothing.
- `pin` is idempotent and increments the pinned-count statistic once.
  `unpin` decrements it only for an address that was pinned.
- The threshold law of `checkPinningPhase` is a parameter (`PhasePolicy`).
  Whatever it proposes is clamped into `[lo, hi]`.

## Model

| member | source | states |
|---|---|---|
| X86Tlb.TlbStats.constructor | GEM5/MMU/tlb.hh:121-124 | the three inner-cache counters of the statistics group start at zero |
| X86Tlb.InnerCache.constructor | GEM5/MMU/tlb.hh:285-288 | stores the capacity, pin limit, initial threshold and statistics pointer, starts with empty containers and LRU sequence 0, and satisfies the invariant; the phase policy's range must not be empty |
| X86Tlb.InnerCache.IsEmpty | GEM5/MMU/tlb.hh:205-210 | true exactly when fewer entries are resident than the capacity allows |
| X86Tlb.InnerCache.IsPinningEmpty | GEM5/MMU/tlb.hh:212-217 | true exactly when fewer entries are pinned than the pin limit allows |
| X86Tlb.InnerCache.CheckExistence | GEM5/MMU/tlb.hh:219-225 | true exactly when the virtual address is resident and maps to the given physical address |
| X86Tlb.InnerCache.CheckPin | GEM5/MMU/tlb.hh:261-266 | true exactly when the address is in the pin set |
| X86Tlb.InnerCache.Insert | GEM5/MMU/tlb.hh:241-245 | the mapping becomes `vAddr -> pAddr`; no other field changes |
| X86Tlb.InnerCache.IncreaseCount | GEM5/MMU/tlb.hh:247-252 | the address's access count (0 if absent) goes up by one; nothing else changes |
| X86Tlb.InnerCache.UpdateLRUCount | GEM5/MMU/tlb.hh:254-259 | pre-increments the LRU sequence and stamps the address with the new value |
| X86Tlb.InnerCache.Pin | GEM5/MMU/tlb.hh:274 | adds the address to the pin set and increments the pinned-count statistic, once |
| X86Tlb.InnerCache.Unpin | GEM5/MMU/tlb.hh:276 | removes the address from the pin set and decrements the pinned-count statistic if it was pinned |
| X86Tlb.InnerCache.TryPin | GEM5/MMU/tlb.hh:268-272 | pins exactly when the entry is resident, unpinned, the pin set has room and its count reached the threshold |
| X86Tlb.InnerCache.Invalidate | GEM5/MMU/tlb.hh:227-233 | unpins the address and removes its mapping, access history and LRU stamp |
| X86Tlb.InnerCache.FindVictim | GEM5/MMU/tlb.hh:235-239 | the scan returns a candidate with the smallest LRU stamp: an unpinned entry, or any entry when all are pinned |
| X86Tlb.InnerCache.Evict | GEM5/MMU/tlb.hh:235-239 | removes exactly the replacement policy's victim with its metadata |
| X86Tlb.InnerCache.CheckPinningPhase | GEM5/MMU/tlb.hh:278-282 | sets the threshold to the policy's proposal for the current statistics, clamped to the policy's range |
| X86Tlb.InnerCache.RecordUse | GEM5/MMU/tlb.hh:290-298 | the hit path of a lookup: stamp, count, try to pin |
| X86Tlb.InnerCache.Miss | GEM5/MMU/tlb.hh:290-298 | the miss path of a lookup: drop a stale mapping, count the miss, evict when full, admit the translation |
| X86Tlb.InnerCache.CheckCacheLatency | GEM5/MMU/tlb.hh:290-298 | one lookup changes the object as the specification's lookup does, keeps the invariant, and leaves the threshold within the phase policy's range |
| X86Tlb.Tlb.constructor | GEM5/MMU/tlb.hh:72 | the TLB's LRU sequence counter starts at 0 |
| X86Tlb.Tlb.NextSeq | GEM5/MMU/tlb.hh:137-141 | pre-increments the TLB's LRU sequence counter and returns the new value |
| X86Tlb.Tlb.ConcAddrPcid | GEM5/MMU/tlb.hh:79-83 | for a page-aligned address and a PCID within the 12 offset bits, the PCID is the low 12 bits of the tag and the address its upper bits |
| InnerCacheSpec.Victim | GEM5/MMU/tlb.hh:235-239 | the victim is resident and has the smallest LRU stamp among the unpinned entries, or among all entries when all are pinned |
| InnerCacheProps.TableRoundTrip | GEM5/MMU/tlb.hh:191-201 | the four containers, read as one table of entries and written back, are unchanged |
| InnerCacheProps.WithTableRoundTrip | GEM5/MMU/tlb.hh:191-201 | any table of entries written into the four containers is coherent and reads back as the same table |
| InnerCacheProps.InsertMaps | GEM5/MMU/tlb.hh:241-245 | after insert the mapping is resident, no other address changes, and the size grows by one exactly for a new address |
| InnerCacheProps.IncreaseCountBumpsOne | GEM5/MMU/tlb.hh:247-252 | only the given address's count changes, by one; mappings and pins stay |
| InnerCacheProps.UpdateLRUCountStampsLatest | GEM5/MMU/tlb.hh:254-259 | the new stamp is greater than every stamp handed out before, other stamps are unchanged, and stamps stay distinct and bounded by the counter |
| InnerCacheProps.PinUnpinTouchOnlyTheirAddress | GEM5/MMU/tlb.hh:261-276 | pin adds and unpin removes only their own address, and the pinned-count statistic keeps equal to the pin set's size |
| InnerCacheProps.TryPinRespectsLimit | GEM5/MMU/tlb.hh:212-217 | an address ends up pinned iff it was pinned or qualified; other pins are unchanged and the pin limit holds |
| InnerCacheProps.InvalidateDropsOnlyItsEntry | GEM5/MMU/tlb.hh:227-233 | the address is no longer resident, pinned or counted; every other entry and the access and miss counters are unchanged |
| InnerCacheProps.InvalidateKeepsCoherent | GEM5/MMU/tlb.hh:227-233 | the pin set and metadata still cover exactly the resident keys |
| InnerCacheProps.InvalidateKeepsStamps | GEM5/MMU/tlb.hh:227-233 | LRU stamps stay distinct and bounded by the counter |
| InnerCacheProps.InvalidateShrinks | GEM5/MMU/tlb.hh:227-233 | the store and the pin set shrink by one exactly when the address was resident or pinned |
| InnerCacheProps.InvalidateKeepsStats | GEM5/MMU/tlb.hh:227-233 | misses stay within accesses and the pinned count still equals the pin set's size |
| InnerCacheProps.InvalidateKeepsInv | GEM5/MMU/tlb.hh:227-233 | invalidate keeps the whole invariant |
| InnerCacheProps.EvictRemovesLeastRecent | GEM5/MMU/tlb.hh:235-239 | the victim is removed and is least recent among the unpinned entries, or among all when all are pinned; other entries, and the pin set when an unpinned entry existed, are unchanged |
| InnerCacheProps.EvictKeepsInv | GEM5/MMU/tlb.hh:235-239 | evict keeps the invariant, frees exactly one slot, and leaves room in a full cache |
| InnerCacheProps.VictimUnique | GEM5/MMU/tlb.hh:235-239 | with distinct stamps there is only one least-recent candidate, so the victim is determined |
| InnerCacheProps.CheckPinningPhaseBounded | GEM5/MMU/tlb.hh:278-282 | the new threshold lies in the policy's range and nothing else changes |
| InnerCacheProps.ResidentIsReadyForUse | GEM5/MMU/tlb.hh:290-298 | a resident entry of a valid cache may be stamped, counted and offered for pinning |
| InnerCacheProps.InsertShapeReady | GEM5/MMU/tlb.hh:241-245 | a fresh insert is resident and lacks only its own history and stamp |
| InnerCacheProps.InsertKeepsCounts | GEM5/MMU/tlb.hh:241-245 | inserting a new address into a cache with room keeps capacity, stamp and statistics invariants |
| InnerCacheProps.InsertIsReadyForUse | GEM5/MMU/tlb.hh:241-245 | a fresh insert into a valid cache with room may be stamped, counted and offered for pinning |
| InnerCacheProps.UseKeepsCoherent | GEM5/MMU/tlb.hh:247-272 | stamping, counting and trying to pin a resident entry restores coherence of the metadata |
| InnerCacheProps.UseKeepsStamps | GEM5/MMU/tlb.hh:254-259 | stamping, counting and trying to pin keeps stamps distinct and bounded |
| InnerCacheProps.UseKeepsBounds | GEM5/MMU/tlb.hh:268-276 | stamping, counting and trying to pin keeps the capacity, pin limit and statistics invariants |
| InnerCacheProps.RecordUseKeepsInv | GEM5/MMU/tlb.hh:247-272 | a use of a resident entry leaves a valid cache |
| InnerCacheLookup.CountAccessKeepsInv | GEM5/MMU/tlb.hh:121-122 | counting an access keeps the invariant and leaves misses strictly below accesses |
| InnerCacheLookup.CountMissKeepsInv | GEM5/MMU/tlb.hh:121-122 | counting a miss after its access keeps the invariant |
| InnerCacheLookup.UseFrame | GEM5/MMU/tlb.hh:247-272 | a use changes no mapping and no other entry, adds one access, makes the stamp newest and never drops a pin |
| InnerCacheLookup.AdmitFresh | GEM5/MMU/tlb.hh:241-272 | admitting an absent translation makes it resident with one access, pinned exactly when the pin set has room and one access qualifies, and touches no other entry |
| InnerCacheLookup.AdmitTouchesOnlyItsEntry | GEM5/MMU/tlb.hh:241-272 | admission, when there is room, leaves every other entry unchanged |
| InnerCacheLookup.MakeRoomFrame | GEM5/MMU/tlb.hh:235-239 | evicting when full only removes entries and keeps the counters and coherence |
| InnerCacheLookup.MakeRoomLeavesRoom | GEM5/MMU/tlb.hh:205-239 | after evicting when full there is room for one entry |
| InnerCacheLookup.MakeRoomKeepsInv | GEM5/MMU/tlb.hh:235-239 | evicting when full keeps the invariant |
| InnerCacheLookup.MakeRoomSparesPinned | GEM5/MMU/tlb.hh:235-239 | with fewer pin slots than cache slots, eviction never touches a pinned entry |
| InnerCacheLookup.ClearFrame | GEM5/MMU/tlb.hh:227-233 | dropping a stale mapping removes only that address and keeps the counters |
| InnerCacheLookup.ClearKeepsInv | GEM5/MMU/tlb.hh:227-233 | dropping a stale mapping keeps the invariant and shrinks the store by one exactly when it was resident |
| InnerCacheLookup.MissKeepsInv | GEM5/MMU/tlb.hh:290-298 | the miss path keeps the invariant |
| InnerCacheLookup.MissCounts | GEM5/MMU/tlb.hh:121-122 | the miss path counts exactly one miss and no access |
| InnerCacheLookup.MissAdmits | GEM5/MMU/tlb.hh:290-298 | with nonzero capacity the miss path leaves the translation resident and only removes other entries |
| InnerCacheLookup.PinnedSurviveMiss | GEM5/MMU/tlb.hh:235-239 | with fewer pin slots than cache slots, the miss path keeps every other pinned entry as it was |
| InnerCacheLookup.CheckCacheLatencyKeepsInv | GEM5/MMU/tlb.hh:290-298 | every lookup keeps the invariant: coherent containers, distinct fresh stamps, both capacity bounds, consistent statistics |
| InnerCacheLookup.CheckCacheLatencyCounts | GEM5/MMU/tlb.hh:121-124 | a lookup counts one access, and one miss iff the translation was not resident; misses stay within accesses; the pinned count equals the pin set's size |
| InnerCacheLookup.CheckCacheLatencyServes | GEM5/MMU/tlb.hh:290-298 | with nonzero capacity the translation is resident after the lookup, and every other resident mapping was resident before with the same target |
| InnerCacheLookup.VictimIgnoresCounters | GEM5/MMU/tlb.hh:235-239 | the victim chosen after counting the access and the miss is least recent among the candidates of the state before the lookup |
| InnerCacheLookup.FullMakeRoom | GEM5/MMU/tlb.hh:235-239 | making room in a full cache removes exactly the victim, leaves room and coherent containers, keeps the access and miss counters and every other entry |
| InnerCacheLookup.FullMissSwapsVictim | GEM5/MMU/tlb.hh:290-298 | on a full cache, the miss path for an absent address removes exactly the victim, admits the translation, keeps the size and every other entry |
| InnerCacheLookup.FullMissEvictsVictim | GEM5/MMU/tlb.hh:290-298 | a lookup of an absent address in a full cache is a miss that evicts exactly one entry, the least recent candidate, admits the translation at the same size, and leaves every other entry's mapping, count, stamp and pin unchanged |
| InnerCacheLookup.FreshMissWithRoom | GEM5/MMU/tlb.hh:290-298 | a lookup of an absent address in a cache with room is a miss that evicts nothing: the translation is added with one access, pinned exactly when the pin set has room and one access qualifies, and every resident entry keeps its mapping, count, stamp and pin |
| InnerCacheLookup.MissStampsNext | GEM5/MMU/tlb.hh:254-259 | with room for any entry, the miss path stamps its address with the next sequence number |
| InnerCacheLookup.LookupStampsNewest | GEM5/MMU/tlb.hh:254-259 | with room for any entry, every lookup, hit or miss, advances the sequence by one and gives its address a stamp newer than every earlier stamp |
| InnerCacheLookup.HitRefreshesEntry | GEM5/MMU/tlb.hh:290-298 | a hit changes no mapping and no miss count, adds one access and gives the newest stamp, and leaves other entries alone |
| InnerCacheLookup.HitPinsAtThreshold | GEM5/MMU/tlb.hh:261-298 | after a hit the entry is pinned exactly when it was pinned, or the pin set has room and the raised access count reaches the threshold; the pinned count rises by one exactly when a new pin is made |
| InnerCacheLookup.RepeatIsHit | GEM5/MMU/tlb.hh:290-298 | a lookup repeated right away is a hit and changes no mapping |
| InnerCacheLookup.StaleMappingIsReplaced | GEM5/MMU/tlb.hh:227-233 | a lookup with a new physical address is a miss that replaces the stale entry, restarts its history at one access, evicts nothing else, and pins it again exactly when one access qualifies and the pin set without it has room |
| InnerCacheLookup.PinnedEntriesSurvive | GEM5/MMU/tlb.hh:268-298 | with fewer pin slots than cache slots, a lookup never evicts or unpins another pinned entry |
| InnerCacheLookup.RunKeepsInv | GEM5/MMU/tlb.hh:290-298 | over any sequence of lookups the invariant holds, accesses grow by the sequence's length and misses by at most that |
| InnerCacheLookup.InitSatisfiesInv | GEM5/MMU/tlb.hh:285-288 | the constructed cache is valid and has room iff its capacity is nonzero |
| InnerCacheLookup.ScenarioVictim | GEM5/MMU/tlb.hh:235-239 | in the two-entry cache with address 1 pinned, the victim is address 2 |
| InnerCacheLookup.Scenario | GEM5/MMU/tlb.hh:290-298 | capacity 2, one pin slot, threshold 3, lookups (1,100) (2,200) (1,100) (1,100) (3,300): 1 is pinned, 2 is evicted, the store is {1 -> 100, 3 -> 300}, 5 accesses, 3 misses, 1 pin |

## Left out

- The method bodies of `InnerCache` are not part of this model (only the declarations in `GEM5/MMU/tlb.hh` are). The behaviour above follows the header's comments, with the choices listed in the introduction.
- `X86Tlb.InnerCache.CheckPinningPhase`: the adjustment law and its trigger are a parameter, because the source does not define them. The model proves only that the result stays in the configured range. The model keeps no phase state of its own: the law sees only the current counters, occupancy and threshold (`PhaseView`), so a law that remembers the previous phase or earlier counter values cannot be expressed.
- `X86Tlb.InnerCache.Invalidate`: resetting the access history on a remap is a policy choice. Keeping the history is the alternative and is not modelled.
- `X86Tlb.InnerCache.CheckExistence`: its body is not visible and the member is not `const` in the header, so it might also drop a stale mapping itself. The model treats it as a pure query. Stale-mapping invalidation happens in the miss path (`InnerCacheSpec.Miss`), so a lookup ends in the same state either way, but a stale entry removed inside `checkExistence` is not modelled as such.
- `X86Tlb.InnerCache.UpdateLRUCount`: does not model the 64-bit wrap-around of `currentLRUSeq`, because 2^64 lookups do not occur in a simulation.
- `X86Tlb.Tlb.constructor`: `tlb.hh` declares the TLB constructor without a body, so the initial value 0 of `lruSeq` is assumed. The contract of `NextSeq` does not depend on it.
- `X86Tlb.Tlb.NextSeq`: does not model the 64-bit wrap-around of `lruSeq`, for the same reason.
- `X86Tlb.InnerCache.IncreaseCount`: access counts and the statistics counters are unbounded integers. The statistics are floating-point scalars in gem5, and their formulas, reset and dump are not modelled.
- `X86Tlb.Tlb.ConcAddrPcid`: takes raw 64-bit words. It states the split of the tag only for a page-aligned address and a PCID within the offset bits. Which callers guarantee this is not part of this model.
- The rest of the x86 TLB is not part of this model: the entry trie, the free list, `lookup`, `translate`, `flushAll`, `demapPage`, the walker and the read/write statistics.
- `Chipyard-Firesim/CacheReplacementPolicy/hit_rate.c` is an offline log parser for hit rates, unrelated to the cache's behaviour, and is not modelled.
- Hashing, iteration order of the standard containers and memory ownership of the statistics pointer are not modelled. Containers are maps and sets, and the statistics group is a shared object.
