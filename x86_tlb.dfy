/**
 * The x86 TLB's inner page-table-entry cache as the object it is: a class
 * whose methods update its containers and counters in place and the shared
 * statistics group. Every state-changing `InnerCache` method is proved to
 * perform exactly the state change of the matching function of
 * `InnerCacheSpec`, so everything proved there about the functions holds of
 * the object.
 */
module X86Tlb {
  import opened InnerCacheSpec
  import opened InnerCacheProps
  import opened InnerCacheLookup

  /** The inner-cache counters of the TLB's statistics group, shared with the inner cache through a pointer. */
  class TlbStats {
    var innerCacheAccesses: int
    var innerCacheMisses: int
    var innerCachePinnedCount: int

    constructor ()
      ensures innerCacheAccesses == 0 && innerCacheMisses == 0 && innerCachePinnedCount == 0
    {
      innerCacheAccesses := 0;
      innerCacheMisses := 0;
      innerCachePinnedCount := 0;
    }
  }

  class InnerCache {
    var cache: map<Addr, Addr>
    const cacheSize: nat
    var pinnedList: set<Addr>
    const maxPinnedSize: nat
    var accessHistory: map<Addr, nat>
    var pinThreshold: nat
    var lruTable: map<Addr, nat>
    var currentLRUSeq: nat
    const stats: TlbStats
    /** The threshold law of `checkPinningPhase`, supplied from outside. */
    const policy: PhasePolicy

    /** The object's state as a value of the specification. */
    function Model(): Cache
      reads this, stats
    {
      Cache(cache, cacheSize, pinnedList, maxPinnedSize, accessHistory, pinThreshold, lruTable, currentLRUSeq,
            Stats(stats.innerCacheAccesses, stats.innerCacheMisses, stats.innerCachePinnedCount))
    }

    /** The cache's invariant, and a non-empty range for the phase policy. */
    ghost predicate Valid()
      reads this, stats
    {
      Inv(Model()) && policy.lo <= policy.hi
    }

    constructor (cacheSize: nat, maxPinnedSize: nat, pinThreshold: nat, stats: TlbStats, policy: PhasePolicy)
      requires 0 <= stats.innerCacheMisses <= stats.innerCacheAccesses && stats.innerCachePinnedCount == 0
      requires policy.lo <= policy.hi
      ensures this.stats == stats && this.policy == policy
      ensures Model() == Init(cacheSize, maxPinnedSize, pinThreshold,
                              Stats(stats.innerCacheAccesses, stats.innerCacheMisses, stats.innerCachePinnedCount))
      ensures Valid()
    {
      this.cache := map[];
      this.cacheSize := cacheSize;
      this.pinnedList := {};
      this.maxPinnedSize := maxPinnedSize;
      this.accessHistory := map[];
      this.pinThreshold := pinThreshold;
      this.lruTable := map[];
      this.currentLRUSeq := 0;
      this.stats := stats;
      this.policy := policy;
    }

    // -------------------------------------------------------------- queries

    predicate IsEmpty(): (r: bool)
      reads this, stats
      ensures r <==> InnerCacheSpec.IsEmpty(Model())
    {
      |cache| < cacheSize
    }

    predicate IsPinningEmpty(): (r: bool)
      reads this, stats
      ensures r <==> InnerCacheSpec.IsPinningEmpty(Model())
    {
      |pinnedList| < maxPinnedSize
    }

    predicate CheckExistence(vAddr: Addr, pAddr: Addr): (r: bool)
      reads this, stats
      ensures r <==> InnerCacheSpec.CheckExistence(Model(), vAddr, pAddr)
    {
      vAddr in cache && cache[vAddr] == pAddr
    }

    predicate CheckPin(vAddr: Addr): (r: bool)
      reads this, stats
      ensures r <==> InnerCacheSpec.CheckPin(Model(), vAddr)
    {
      vAddr in pinnedList
    }

    // ----------------------------------------------------------- mutations

    method Insert(vAddr: Addr, pAddr: Addr)
      modifies this
      ensures Model() == InnerCacheSpec.Insert(old(Model()), vAddr, pAddr)
    {
      cache := cache[vAddr := pAddr];
    }

    method IncreaseCount(vAddr: Addr)
      modifies this
      ensures Model() == InnerCacheSpec.IncreaseCount(old(Model()), vAddr)
    {
      var count := if vAddr in accessHistory then accessHistory[vAddr] else 0;
      accessHistory := accessHistory[vAddr := count + 1];
    }

    method UpdateLRUCount(vAddr: Addr)
      modifies this
      ensures Model() == InnerCacheSpec.UpdateLRUCount(old(Model()), vAddr)
    {
      currentLRUSeq := currentLRUSeq + 1;
      lruTable := lruTable[vAddr := currentLRUSeq];
    }

    method Pin(vAddr: Addr)
      modifies this, stats
      ensures Model() == InnerCacheSpec.Pin(old(Model()), vAddr)
    {
      if vAddr !in pinnedList {
        pinnedList := pinnedList + {vAddr};
        stats.innerCachePinnedCount := stats.innerCachePinnedCount + 1;
      }
    }

    method Unpin(vAddr: Addr)
      modifies this, stats
      ensures Model() == InnerCacheSpec.Unpin(old(Model()), vAddr)
    {
      if vAddr in pinnedList {
        pinnedList := pinnedList - {vAddr};
        stats.innerCachePinnedCount := stats.innerCachePinnedCount - 1;
      }
    }

    method TryPin(vAddr: Addr)
      modifies this, stats
      ensures Model() == InnerCacheSpec.TryPin(old(Model()), vAddr)
    {
      var count := if vAddr in accessHistory then accessHistory[vAddr] else 0;
      if !CheckPin(vAddr) && IsPinningEmpty() && vAddr in cache && count >= pinThreshold {
        Pin(vAddr);
      }
    }

    method Invalidate(vAddr: Addr)
      modifies this, stats
      ensures Model() == InnerCacheSpec.Invalidate(old(Model()), vAddr)
    {
      Unpin(vAddr);
      cache := cache - {vAddr};
      accessHistory := accessHistory - {vAddr};
      lruTable := lruTable - {vAddr};
    }

    /** Scans the eviction candidates for the smallest LRU stamp. */
    method FindVictim() returns (victim: Addr)
      requires |cache| > 0
      ensures LeastRecent(Model(), victim, Candidates(Model()))
    {
      var pool := cache.Keys - pinnedList;
      if pool == {} {
        pool := cache.Keys;
      }
      NonEmptyHasMember(cache.Keys);
      NonEmptyHasMember(pool);
      victim :| victim in pool;
      var best := if victim in lruTable then lruTable[victim] else 0;
      var rest := pool - {victim};
      while rest != {}
        invariant rest <= pool && victim in pool
        invariant best == LruOf(Model(), victim)
        invariant forall j :: j in pool && j !in rest ==> best <= LruOf(Model(), j)
        decreases rest
      {
        NonEmptyHasMember(rest);
        var next :| next in rest;
        var stamp := if next in lruTable then lruTable[next] else 0;
        if stamp < best {
          victim, best := next, stamp;
        }
        rest := rest - {next};
      }
    }

    method Evict()
      requires Coherent(Model()) && StampsFresh(Model())
      modifies this, stats
      ensures Model() == InnerCacheSpec.Evict(old(Model()))
    {
      if |cache| == 0 {
        return;
      }
      var victim := FindVictim();
      VictimUnique(Model(), victim, Victim(Model()));
      Invalidate(victim);
    }

    method CheckPinningPhase()
      modifies this
      ensures Model() == InnerCacheSpec.CheckPinningPhase(old(Model()), policy)
    {
      var view := PhaseView(stats.innerCacheAccesses, stats.innerCacheMisses, stats.innerCachePinnedCount,
                            |cache|, pinThreshold);
      pinThreshold := Clamp(policy.law(view), policy.lo, policy.hi);
    }

    /** A use of a resident entry: stamp it, count it, and try to pin it. */
    method RecordUse(vAddr: Addr)
      modifies this, stats
      ensures Model() == InnerCacheSpec.RecordUse(old(Model()), vAddr)
    {
      UpdateLRUCount(vAddr);
      IncreaseCount(vAddr);
      TryPin(vAddr);
    }

    /** The miss path of a lookup: drop a stale mapping, count the miss, make room and admit the translation. */
    method Miss(vAddr: Addr, pAddr: Addr)
      requires Valid() && stats.innerCacheMisses < stats.innerCacheAccesses
      modifies this, stats
      ensures Model() == InnerCacheSpec.Miss(old(Model()), vAddr, pAddr)
    {
      ghost var start := Model();
      ghost var cleared := if vAddr in start.cache then InnerCacheSpec.Invalidate(start, vAddr) else start;
      ClearKeepsInv(start, vAddr);
      ClearFrame(start, vAddr);
      CountMissKeepsInv(cleared);
      if vAddr in cache {
        Invalidate(vAddr);
      }
      stats.innerCacheMisses := stats.innerCacheMisses + 1;
      ghost var missed := CountMiss(cleared);
      assert Model() == missed;
      if !IsEmpty() {
        Evict();
      }
      ghost var roomy := MakeRoom(missed);
      assert Model() == roomy;
      if IsEmpty() {
        Insert(vAddr, pAddr);
        RecordUse(vAddr);
        assert Model() == InnerCacheSpec.RecordUse(InnerCacheSpec.Insert(roomy, vAddr, pAddr), vAddr);
      }
    }

    /** One lookup: count it, serve a hit or handle the miss, then re-evaluate the pinning phase. */
    method CheckCacheLatency(vAddr: Addr, pAddr: Addr)
      requires Valid()
      modifies this, stats
      ensures Model() == InnerCacheSpec.CheckCacheLatency(old(Model()), policy, vAddr, pAddr)
      ensures Valid()
      ensures policy.lo <= pinThreshold <= policy.hi
    {
      ghost var start := Model();
      CheckCacheLatencyKeepsInv(start, policy, vAddr, pAddr);
      CountAccessKeepsInv(start);
      stats.innerCacheAccesses := stats.innerCacheAccesses + 1;
      assert Model() == CountAccess(start);
      if CheckExistence(vAddr, pAddr) {
        RecordUse(vAddr);
      } else {
        Miss(vAddr, pAddr);
      }
      CheckPinningPhaseBounded(Model(), policy);
      CheckPinningPhase();
    }
  }

  /** The part of the TLB outside the inner cache that the model keeps: its sequence counter and address tagging. */
  class Tlb {
    var lruSeq: nat

    constructor ()
      ensures lruSeq == 0
    {
      lruSeq := 0;
    }

    /** Pre-increments the TLB's own LRU sequence counter and returns the new value. */
    method NextSeq() returns (r: nat)
      modifies this
      ensures lruSeq == old(lruSeq) + 1 && r == lruSeq
    {
      lruSeq := lruSeq + 1;
      r := lruSeq;
    }

    /**
     * Tags a virtual page address with a PCID by bitwise or. For a
     * page-aligned address and a PCID that fits in the 12 offset bits the
     * two parts come back unchanged from the low and the high bits.
     */
    function ConcAddrPcid(vpn: bv64, pcid: bv64): (r: bv64)
      ensures vpn & 0xFFF == 0 && pcid & 0xFFFF_FFFF_FFFF_F000 == 0 ==>
                r & 0xFFF == pcid && r & 0xFFFF_FFFF_FFFF_F000 == vpn
    {
      vpn | pcid
    }
  }
}
