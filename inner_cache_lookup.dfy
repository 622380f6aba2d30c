/**
 * What one call of `checkCacheLatency`, and any sequence of calls, promises:
 * the invariant of the inner cache, the statistics it reports, hits, misses,
 * stale mappings and the protection of pinned entries.
 */
module InnerCacheLookup {
  import opened InnerCacheSpec
  import opened InnerCacheProps

  // ----------------------------------------------------------------- stages

  lemma CountAccessKeepsInv(s: Cache)
    requires Inv(s)
    ensures Inv(CountAccess(s)) && CountAccess(s).stats.misses < CountAccess(s).stats.accesses
  {
  }

  lemma CountMissKeepsInv(s: Cache)
    requires Inv(s) && s.stats.misses < s.stats.accesses
    ensures Inv(CountMiss(s))
  {
  }

  /** A use changes no mapping and no other entry; it counts the access and stamps the entry newest. */
  lemma UseFrame(t: Cache, vAddr: Addr)
    ensures var u := RecordUse(t, vAddr);
      && u.cache == t.cache
      && u.stats.accesses == t.stats.accesses && u.stats.misses == t.stats.misses
      && u.pinThreshold == t.pinThreshold && u.cacheSize == t.cacheSize
      && AccessCount(u, vAddr) == AccessCount(t, vAddr) + 1
      && LruOf(u, vAddr) == t.currentLRUSeq + 1
      && (CheckPin(t, vAddr) ==> CheckPin(u, vAddr))
      && (forall w :: w != vAddr ==> SameEntry(t, u, w))
  {
    var u1 := UpdateLRUCount(t, vAddr);
    var u2 := IncreaseCount(u1, vAddr);
    forall w | w != vAddr
      ensures SameEntry(t, RecordUse(t, vAddr), w)
    {
      assert SameEntry(t, u1, w);
      assert SameEntry(u1, u2, w);
    }
  }

  /** Admitting an absent translation: it becomes resident with one access, and nothing else changes. */
  lemma AdmitFresh(r: Cache, vAddr: Addr, pAddr: Addr)
    requires Coherent(r) && vAddr !in r.cache
    ensures var t := RecordUse(Insert(r, vAddr, pAddr), vAddr);
      && t.cache == r.cache[vAddr := pAddr]
      && CheckExistence(t, vAddr, pAddr)
      && AccessCount(t, vAddr) == 1
      && (CheckPin(t, vAddr) <==> IsPinningEmpty(r) && r.pinThreshold <= 1)
      && t.stats.accesses == r.stats.accesses && t.stats.misses == r.stats.misses
      && (forall w :: w != vAddr ==> SameEntry(r, t, w))
  {
    var i := Insert(r, vAddr, pAddr);
    InsertMaps(r, vAddr, pAddr);
    UseFrame(i, vAddr);
    assert AccessCount(i, vAddr) == 0;
    var u := IncreaseCount(UpdateLRUCount(i, vAddr), vAddr);
    assert u.pinnedList == r.pinnedList && vAddr !in r.pinnedList;
    assert vAddr in u.cache && AccessCount(u, vAddr) == 1 && u.pinThreshold == r.pinThreshold;
  }

  /** Making room only removes entries, leaves the counters alone and keeps the store coherent. */
  lemma MakeRoomFrame(s: Cache)
    ensures var t := MakeRoom(s);
      && (forall w :: w in t.cache ==> w in s.cache && t.cache[w] == s.cache[w])
      && t.stats.accesses == s.stats.accesses && t.stats.misses == s.stats.misses
      && t.cacheSize == s.cacheSize && t.pinThreshold == s.pinThreshold
      && t.currentLRUSeq == s.currentLRUSeq
      && (Coherent(s) ==> Coherent(t))
  {
    if !IsEmpty(s) && |s.cache| > 0 {
      InvalidateDropsOnlyItsEntry(s, Victim(s));
      if Coherent(s) {
        InvalidateKeepsCoherent(s, Victim(s));
      }
    }
  }

  /** A cache that can hold an entry and is not over-full has room after `MakeRoom`. */
  lemma MakeRoomLeavesRoom(s: Cache)
    requires Coherent(s) && |s.cache| <= s.cacheSize && s.cacheSize > 0
    ensures IsEmpty(MakeRoom(s))
  {
    if !IsEmpty(s) {
      InvalidateShrinks(s, Victim(s));
    }
  }

  /** Making room keeps the invariant. */
  lemma MakeRoomKeepsInv(s: Cache)
    requires Inv(s)
    ensures Inv(MakeRoom(s))
  {
    if !IsEmpty(s) {
      EvictKeepsInv(s);
    }
  }

  /** When fewer entries may be pinned than the cache holds, making room never touches a pinned entry. */
  lemma MakeRoomSparesPinned(s: Cache)
    requires |s.pinnedList| <= s.maxPinnedSize < s.cacheSize
    ensures forall w :: w in s.pinnedList ==> SameEntry(s, MakeRoom(s), w)
  {
    if !IsEmpty(s) {
      assert s.cache.Keys - s.pinnedList != {} by {
        if s.cache.Keys - s.pinnedList == {} {
          assert s.cache.Keys <= s.pinnedList by {
            forall j | j in s.cache ensures j in s.pinnedList {
              assert j !in s.cache.Keys - s.pinnedList;
            }
          }
          SubsetCardinality(s.cache.Keys, s.pinnedList);
          assert false;
        }
      }
      EvictRemovesLeastRecent(s);
    }
  }

  /** Dropping the stale mapping of `vAddr`, the first step of a miss. */
  lemma ClearFrame(s: Cache, vAddr: Addr)
    ensures var c := if vAddr in s.cache then Invalidate(s, vAddr) else s;
      && vAddr !in c.cache
      && (forall w :: w != vAddr ==> SameEntry(s, c, w))
      && c.stats.accesses == s.stats.accesses && c.stats.misses == s.stats.misses
      && c.cacheSize == s.cacheSize && c.pinThreshold == s.pinThreshold
      && c.currentLRUSeq == s.currentLRUSeq
  {
    if vAddr in s.cache {
      InvalidateDropsOnlyItsEntry(s, vAddr);
    }
  }

  lemma ClearKeepsInv(s: Cache, vAddr: Addr)
    requires Inv(s)
    ensures var c := if vAddr in s.cache then Invalidate(s, vAddr) else s;
      Inv(c) && |c.cache| == |s.cache| - (if vAddr in s.cache then 1 else 0)
  {
    if vAddr in s.cache {
      InvalidateKeepsInv(s, vAddr);
    }
  }

  lemma MissKeepsInv(s: Cache, vAddr: Addr, pAddr: Addr)
    requires Inv(s) && s.stats.misses < s.stats.accesses
    ensures Inv(Miss(s, vAddr, pAddr))
  {
    var cleared := if vAddr in s.cache then Invalidate(s, vAddr) else s;
    ClearKeepsInv(s, vAddr);
    ClearFrame(s, vAddr);
    CountMissKeepsInv(cleared);
    var roomy := MakeRoom(CountMiss(cleared));
    MakeRoomKeepsInv(CountMiss(cleared));
    MakeRoomFrame(CountMiss(cleared));
    if IsEmpty(roomy) {
      InsertIsReadyForUse(roomy, vAddr, pAddr);
      RecordUseKeepsInv(Insert(roomy, vAddr, pAddr), vAddr);
    }
  }

  /** A miss counts one miss and no access. */
  lemma MissCounts(s: Cache, vAddr: Addr, pAddr: Addr)
    ensures Miss(s, vAddr, pAddr).stats.accesses == s.stats.accesses
    ensures Miss(s, vAddr, pAddr).stats.misses == s.stats.misses + 1
  {
    var cleared := if vAddr in s.cache then Invalidate(s, vAddr) else s;
    ClearFrame(s, vAddr);
    MakeRoomFrame(CountMiss(cleared));
    UseFrame(Insert(MakeRoom(CountMiss(cleared)), vAddr, pAddr), vAddr);
  }

  /** With room for any entry at all, a miss admits the translation and otherwise only removes entries. */
  lemma MissAdmits(s: Cache, vAddr: Addr, pAddr: Addr)
    requires Inv(s) && s.cacheSize > 0
    ensures var t := Miss(s, vAddr, pAddr);
      && CheckExistence(t, vAddr, pAddr)
      && (forall w :: w in t.cache && w != vAddr ==> w in s.cache && t.cache[w] == s.cache[w])
  {
    var cleared := if vAddr in s.cache then Invalidate(s, vAddr) else s;
    ClearKeepsInv(s, vAddr);
    ClearFrame(s, vAddr);
    var m := CountMiss(cleared);
    MakeRoomFrame(m);
    MakeRoomLeavesRoom(m);
    var roomy := MakeRoom(m);
    AdmitFresh(roomy, vAddr, pAddr);
    forall w | w in Miss(s, vAddr, pAddr).cache && w != vAddr
      ensures w in s.cache && Miss(s, vAddr, pAddr).cache[w] == s.cache[w]
    {
      assert w in roomy.cache;
      assert SameEntry(s, cleared, w);
    }
  }

  // ------------------------------------------------------------ the lookup

  lemma CheckCacheLatencyKeepsInv(s: Cache, policy: PhasePolicy, vAddr: Addr, pAddr: Addr)
    requires Inv(s)
    ensures Inv(CheckCacheLatency(s, policy, vAddr, pAddr))
  {
    var counted := CountAccess(s);
    CountAccessKeepsInv(s);
    if CheckExistence(s, vAddr, pAddr) {
      ResidentIsReadyForUse(counted, vAddr);
      RecordUseKeepsInv(counted, vAddr);
    } else {
      MissKeepsInv(counted, vAddr, pAddr);
    }
  }

  /**
   * Each lookup counts exactly one access, and one miss exactly when the
   * translation was not resident; misses never exceed accesses and the
   * pinned-count statistic is the size of the pin set.
   */
  lemma CheckCacheLatencyCounts(s: Cache, policy: PhasePolicy, vAddr: Addr, pAddr: Addr)
    requires Inv(s)
    ensures var t := CheckCacheLatency(s, policy, vAddr, pAddr);
      && t.stats.accesses == s.stats.accesses + 1
      && t.stats.misses == s.stats.misses + (if CheckExistence(s, vAddr, pAddr) then 0 else 1)
      && t.stats.misses <= t.stats.accesses
      && t.stats.pinnedCount == |t.pinnedList|
  {
    CheckCacheLatencyKeepsInv(s, policy, vAddr, pAddr);
    if CheckExistence(s, vAddr, pAddr) {
      UseFrame(CountAccess(s), vAddr);
    } else {
      MissCounts(CountAccess(s), vAddr, pAddr);
    }
  }

  /**
   * With room for at least one entry, a lookup leaves the requested
   * translation resident, and every other resident translation was resident
   * before with the same physical address.
   */
  lemma CheckCacheLatencyServes(s: Cache, policy: PhasePolicy, vAddr: Addr, pAddr: Addr)
    requires Inv(s) && s.cacheSize > 0
    ensures var t := CheckCacheLatency(s, policy, vAddr, pAddr);
      && CheckExistence(t, vAddr, pAddr)
      && (forall w :: w in t.cache && w != vAddr ==> w in s.cache && t.cache[w] == s.cache[w])
  {
    CountAccessKeepsInv(s);
    if CheckExistence(s, vAddr, pAddr) {
      UseFrame(CountAccess(s), vAddr);
    } else {
      MissAdmits(CountAccess(s), vAddr, pAddr);
    }
  }

  /** The counters play no part in choosing the victim. */
  lemma VictimIgnoresCounters(s: Cache)
    requires |s.cache| > 0
    ensures LeastRecent(s, Victim(CountMiss(CountAccess(s))), Candidates(s))
  {
    var m := CountMiss(CountAccess(s));
    assert Candidates(m) == Candidates(s);
    assert forall j :: LruOf(m, j) == LruOf(s, j);
  }

  /** Making room in a full cache evicts the victim alone and leaves room. */
  lemma FullMakeRoom(m: Cache)
    requires Inv(m) && |m.cache| == m.cacheSize > 0
    ensures var r := MakeRoom(m); var k := Victim(m);
      && k in m.cache && k !in r.cache
      && |r.cache| == |m.cache| - 1 && IsEmpty(r) && Coherent(r)
      && r.stats.accesses == m.stats.accesses && r.stats.misses == m.stats.misses
      && (forall w :: w != k ==> SameEntry(m, r, w))
  {
    EvictRemovesLeastRecent(m);
    EvictKeepsInv(m);
    assert MakeRoom(m) == Evict(m);
  }

  /** The miss path on an absent address in a full cache: the victim goes, the translation comes, nothing else changes. */
  lemma FullMissSwapsVictim(c: Cache, vAddr: Addr, pAddr: Addr)
    requires Inv(c) && c.stats.misses < c.stats.accesses
    requires vAddr !in c.cache && |c.cache| == c.cacheSize > 0
    ensures var t := Miss(c, vAddr, pAddr); var k := Victim(CountMiss(c));
      && k in c.cache && k !in t.cache
      && CheckExistence(t, vAddr, pAddr)
      && |t.cache| == |c.cache|
      && (forall w :: w != vAddr && w != k ==> SameEntry(c, t, w))
  {
    var m := CountMiss(c);
    CountMissKeepsInv(c);
    FullMakeRoom(m);
    var roomy := MakeRoom(m);
    AdmitFresh(roomy, vAddr, pAddr);
    InsertMaps(roomy, vAddr, pAddr);
    var a := RecordUse(Insert(roomy, vAddr, pAddr), vAddr);
    assert Miss(c, vAddr, pAddr) == a;
    FullMissFrame(c, m, roomy, a, vAddr, Victim(m));
  }

  lemma FullMissFrame(s: Cache, m: Cache, roomy: Cache, a: Cache, vAddr: Addr, k: Addr)
    requires m.cache == s.cache && m.accessHistory == s.accessHistory
    requires m.lruTable == s.lruTable && m.pinnedList == s.pinnedList
    requires forall w :: w != k ==> SameEntry(m, roomy, w)
    requires forall w :: w != vAddr ==> SameEntry(roomy, a, w)
    ensures forall w :: w != vAddr && w != k ==> SameEntry(s, a, w)
  {
    forall w | w != vAddr && w != k
      ensures SameEntry(s, a, w)
    {
      assert SameEntry(s, m, w);
      SameEntryChain(s, m, roomy, w);
      SameEntryChain(s, roomy, a, w);
    }
  }

  /** Steps that touch only counters or the threshold keep every entry. */
  lemma SameEntriesCarryOver(s: Cache, c: Cache, a: Cache, t: Cache, vAddr: Addr, k: Addr)
    requires c.cache == s.cache && c.accessHistory == s.accessHistory
    requires c.lruTable == s.lruTable && c.pinnedList == s.pinnedList
    requires t.cache == a.cache && t.accessHistory == a.accessHistory
    requires t.lruTable == a.lruTable && t.pinnedList == a.pinnedList
    requires forall w :: w != vAddr && w != k ==> SameEntry(c, a, w)
    ensures forall w :: w != vAddr && w != k ==> SameEntry(s, t, w)
  {
    forall w | w != vAddr && w != k
      ensures SameEntry(s, t, w)
    {
      assert SameEntry(c, a, w);
      assert AccessCount(s, w) == AccessCount(c, w) && AccessCount(t, w) == AccessCount(a, w);
      assert LruOf(s, w) == LruOf(c, w) && LruOf(t, w) == LruOf(a, w);
    }
  }

  /**
   * A lookup of an absent address in a full cache evicts exactly one entry,
   * the replacement policy's victim (least recent among the unpinned
   * entries, or among all when every entry is pinned), admits the new
   * translation, and leaves every other entry's mapping, count, stamp and
   * pin as they were.
   */
  lemma FullMissEvictsVictim(s: Cache, policy: PhasePolicy, vAddr: Addr, pAddr: Addr)
    requires Inv(s) && vAddr !in s.cache && |s.cache| == s.cacheSize > 0
    ensures var t := CheckCacheLatency(s, policy, vAddr, pAddr); var k := Victim(CountMiss(CountAccess(s)));
      && k in s.cache && k !in t.cache
      && LeastRecent(s, k, Candidates(s))
      && CheckExistence(t, vAddr, pAddr)
      && |t.cache| == |s.cache|
      && t.stats.misses == s.stats.misses + 1
      && (forall w :: w != vAddr && w != k ==> SameEntry(s, t, w))
  {
    var counted := CountAccess(s);
    CountAccessKeepsInv(s);
    VictimIgnoresCounters(s);
    FullMissSwapsVictim(counted, vAddr, pAddr);
    MissCounts(counted, vAddr, pAddr);
    var a := Miss(counted, vAddr, pAddr);
    var k := Victim(CountMiss(counted));
    var t := CheckPinningPhase(a, policy);
    assert CheckCacheLatency(s, policy, vAddr, pAddr) == t;
    assert t.cache == a.cache && t.pinnedList == a.pinnedList;
    assert t.accessHistory == a.accessHistory && t.lruTable == a.lruTable;
    SameEntriesCarryOver(s, counted, a, t, vAddr, k);
  }

  /**
   * A lookup of an absent address in a cache with room evicts nothing: the
   * translation is added, with one access, and every entry already resident
   * keeps its mapping, count, stamp and pin.
   */
  lemma FreshMissWithRoom(s: Cache, policy: PhasePolicy, vAddr: Addr, pAddr: Addr)
    requires Inv(s) && vAddr !in s.cache && IsEmpty(s)
    ensures var t := CheckCacheLatency(s, policy, vAddr, pAddr);
      && t.cache == s.cache[vAddr := pAddr]
      && |t.cache| == |s.cache| + 1
      && t.stats.misses == s.stats.misses + 1
      && AccessCount(t, vAddr) == 1
      && (CheckPin(t, vAddr) <==> IsPinningEmpty(s) && s.pinThreshold <= 1)
      && (forall w :: w != vAddr ==> SameEntry(s, t, w))
  {
    var m := CountMiss(CountAccess(s));
    assert MakeRoom(m) == m;
    AdmitFresh(m, vAddr, pAddr);
    var a := RecordUse(Insert(m, vAddr, pAddr), vAddr);
    assert Miss(CountAccess(s), vAddr, pAddr) == a;
    var t := CheckPinningPhase(a, policy);
    assert CheckCacheLatency(s, policy, vAddr, pAddr) == t;
    assert t.cache == a.cache && t.pinnedList == a.pinnedList;
    assert t.accessHistory == a.accessHistory && t.lruTable == a.lruTable;
    forall w | w != vAddr
      ensures SameEntry(s, t, w)
    {
      assert SameEntry(m, a, w);
    }
  }

  /** With room for any entry, the miss path stamps its address with the next sequence number. */
  lemma MissStampsNext(s: Cache, vAddr: Addr, pAddr: Addr)
    requires Coherent(s) && |s.cache| <= s.cacheSize && s.cacheSize > 0
    ensures var t := Miss(s, vAddr, pAddr);
      LruOf(t, vAddr) == t.currentLRUSeq == s.currentLRUSeq + 1
  {
    var cleared := if vAddr in s.cache then Invalidate(s, vAddr) else s;
    ClearFrame(s, vAddr);
    if vAddr in s.cache {
      InvalidateKeepsCoherent(s, vAddr);
      InvalidateShrinks(s, vAddr);
    }
    var m := CountMiss(cleared);
    MakeRoomFrame(m);
    MakeRoomLeavesRoom(m);
    var roomy := MakeRoom(m);
    UseFrame(Insert(roomy, vAddr, pAddr), vAddr);
  }

  /** With room for at least one entry, a lookup, hit or miss, gives its address a stamp newer than every earlier stamp. */
  lemma LookupStampsNewest(s: Cache, policy: PhasePolicy, vAddr: Addr, pAddr: Addr)
    requires Inv(s) && s.cacheSize > 0
    ensures var t := CheckCacheLatency(s, policy, vAddr, pAddr);
      && LruOf(t, vAddr) == t.currentLRUSeq == s.currentLRUSeq + 1
      && (forall w :: w in s.lruTable ==> s.lruTable[w] < LruOf(t, vAddr))
  {
    var counted := CountAccess(s);
    if CheckExistence(s, vAddr, pAddr) {
      UseFrame(counted, vAddr);
    } else {
      MissStampsNext(counted, vAddr, pAddr);
    }
    assert StampsFresh(s);
  }

  /** A hit changes no mapping and no miss count; it raises the count of the address and gives it the newest stamp. */
  lemma HitRefreshesEntry(s: Cache, policy: PhasePolicy, vAddr: Addr, pAddr: Addr)
    requires Inv(s) && CheckExistence(s, vAddr, pAddr)
    ensures var t := CheckCacheLatency(s, policy, vAddr, pAddr);
      && t.cache == s.cache
      && t.stats.misses == s.stats.misses
      && AccessCount(t, vAddr) == AccessCount(s, vAddr) + 1
      && (forall w :: w in s.lruTable ==> s.lruTable[w] < LruOf(t, vAddr))
      && (forall w :: w != vAddr ==> SameEntry(s, t, w))
  {
    var counted := CountAccess(s);
    UseFrame(counted, vAddr);
    var u := RecordUse(counted, vAddr);
    forall w | w != vAddr
      ensures SameEntry(s, CheckCacheLatency(s, policy, vAddr, pAddr), w)
    {
      assert SameEntry(counted, u, w);
    }
  }

  /**
   * A hit pins its entry exactly when the entry was not pinned, the pin set
   * has room and the raised access count reaches the threshold; the pinned
   * count goes up exactly then, and by one.
   */
  lemma HitPinsAtThreshold(s: Cache, policy: PhasePolicy, vAddr: Addr, pAddr: Addr)
    requires Inv(s) && CheckExistence(s, vAddr, pAddr)
    ensures var t := CheckCacheLatency(s, policy, vAddr, pAddr);
      var q := !CheckPin(s, vAddr) && IsPinningEmpty(s) && AccessCount(s, vAddr) + 1 >= s.pinThreshold;
      && (CheckPin(t, vAddr) <==> CheckPin(s, vAddr) || q)
      && t.stats.pinnedCount == s.stats.pinnedCount + (if q then 1 else 0)
  {
    var counted := UpdateLRUCount(CountAccess(s), vAddr);
    TryPinRespectsLimit(IncreaseCount(counted, vAddr), vAddr);
  }

  /** Repeating a lookup right away is a hit and leaves the store as it was. */
  lemma RepeatIsHit(s: Cache, policy: PhasePolicy, vAddr: Addr, pAddr: Addr)
    requires Inv(s) && s.cacheSize > 0
    ensures var t := CheckCacheLatency(s, policy, vAddr, pAddr);
      && CheckExistence(t, vAddr, pAddr)
      && CheckCacheLatency(t, policy, vAddr, pAddr).cache == t.cache
      && CheckCacheLatency(t, policy, vAddr, pAddr).stats.misses == t.stats.misses
  {
    CheckCacheLatencyServes(s, policy, vAddr, pAddr);
    var t := CheckCacheLatency(s, policy, vAddr, pAddr);
    UseFrame(CountAccess(t), vAddr);
  }

  /** After dropping `vAddr`, the pin set has room exactly when it has room without `vAddr`. */
  lemma ClearedPinRoom(s: Cache, vAddr: Addr)
    ensures IsPinningEmpty(CountMiss(Invalidate(s, vAddr))) <==> |s.pinnedList - {vAddr}| < s.maxPinnedSize
  {
    if vAddr !in s.pinnedList {
      assert s.pinnedList - {vAddr} == s.pinnedList;
    }
  }

  /**
   * A lookup whose physical address differs from the resident one is a miss:
   * the stale entry is replaced without evicting anything else, its access
   * history restarts at one access, and it is pinned again exactly when one
   * access qualifies and the pin set, without it, has room.
   */
  lemma StaleMappingIsReplaced(s: Cache, policy: PhasePolicy, vAddr: Addr, pAddr: Addr)
    requires Inv(s) && vAddr in s.cache && s.cache[vAddr] != pAddr
    ensures var t := CheckCacheLatency(s, policy, vAddr, pAddr);
      && CheckExistence(t, vAddr, pAddr)
      && t.stats.misses == s.stats.misses + 1
      && AccessCount(t, vAddr) == 1
      && (CheckPin(t, vAddr) <==> |s.pinnedList - {vAddr}| < s.maxPinnedSize && s.pinThreshold <= 1)
      && (forall w :: w != vAddr ==> SameEntry(s, t, w))
  {
    var counted := CountAccess(s);
    var cleared := Invalidate(counted, vAddr);
    InvalidateShrinks(counted, vAddr);
    InvalidateKeepsCoherent(counted, vAddr);
    ClearFrame(counted, vAddr);
    var m := CountMiss(cleared);
    assert MakeRoom(m) == m;
    AdmitFresh(m, vAddr, pAddr);
    ClearedPinRoom(counted, vAddr);
    var a := RecordUse(Insert(m, vAddr, pAddr), vAddr);
    assert Miss(counted, vAddr, pAddr) == a;
    assert CheckPin(CheckCacheLatency(s, policy, vAddr, pAddr), vAddr) == CheckPin(a, vAddr);
    forall w | w != vAddr
      ensures SameEntry(s, CheckCacheLatency(s, policy, vAddr, pAddr), w)
    {
      assert SameEntry(counted, cleared, w);
      assert SameEntry(m, a, w);
    }
  }

  /**
   * When fewer entries may be pinned than the cache holds, a lookup never
   * evicts or unpins a pinned entry, except a stale mapping of the looked-up
   * address itself.
   */
  lemma PinnedEntriesSurvive(s: Cache, policy: PhasePolicy, vAddr: Addr, pAddr: Addr)
    requires Inv(s) && s.maxPinnedSize < s.cacheSize
    ensures var t := CheckCacheLatency(s, policy, vAddr, pAddr);
      forall w :: w in s.pinnedList && w != vAddr ==> w in t.cache && CheckPin(t, w) && t.cache[w] == s.cache[w]
  {
    var counted := CountAccess(s);
    CountAccessKeepsInv(s);
    if CheckExistence(s, vAddr, pAddr) {
      UseFrame(counted, vAddr);
      forall w | w in s.pinnedList && w != vAddr
        ensures SameEntry(counted, RecordUse(counted, vAddr), w)
      {
      }
    } else {
      PinnedSurviveMiss(counted, vAddr, pAddr);
    }
  }

  lemma SameEntryChain(a: Cache, b: Cache, c: Cache, w: Addr)
    requires SameEntry(a, b, w) && SameEntry(b, c, w)
    ensures SameEntry(a, c, w)
  {
  }

  /** The last step of a miss, admitting the translation when there is room, touches no other entry. */
  lemma AdmitTouchesOnlyItsEntry(r: Cache, vAddr: Addr, pAddr: Addr, w: Addr)
    requires Coherent(r) && vAddr !in r.cache && w != vAddr
    ensures SameEntry(r, if IsEmpty(r) then RecordUse(Insert(r, vAddr, pAddr), vAddr) else r, w)
  {
    if IsEmpty(r) {
      AdmitFresh(r, vAddr, pAddr);
    }
  }

  lemma PinnedSurviveMiss(s: Cache, vAddr: Addr, pAddr: Addr)
    requires Inv(s) && s.maxPinnedSize < s.cacheSize
    ensures forall w :: w in s.pinnedList && w != vAddr ==> SameEntry(s, Miss(s, vAddr, pAddr), w)
  {
    var cleared := if vAddr in s.cache then Invalidate(s, vAddr) else s;
    ClearKeepsInv(s, vAddr);
    ClearFrame(s, vAddr);
    var m := CountMiss(cleared);
    assert |m.pinnedList| <= m.maxPinnedSize;
    MakeRoomSparesPinned(m);
    MakeRoomFrame(m);
    var roomy := MakeRoom(m);
    var final := if IsEmpty(roomy) then RecordUse(Insert(roomy, vAddr, pAddr), vAddr) else roomy;
    assert Miss(s, vAddr, pAddr) == final;
    forall w | w in s.pinnedList && w != vAddr
      ensures SameEntry(s, final, w)
    {
      assert SameEntry(s, m, w);
      assert w in m.pinnedList;
      SameEntryChain(s, m, roomy, w);
      AdmitTouchesOnlyItsEntry(roomy, vAddr, pAddr, w);
      SameEntryChain(s, roomy, final, w);
    }
  }

  // ----------------------------------------------------------------- traces

  /** Over any sequence of lookups the invariant holds and the counters add up. */
  lemma {:induction false} RunKeepsInv(s: Cache, policy: PhasePolicy, trace: seq<(Addr, Addr)>)
    requires Inv(s)
    ensures var t := Run(s, policy, trace);
      && Inv(t)
      && t.stats.accesses == s.stats.accesses + |trace|
      && t.stats.misses <= s.stats.misses + |trace|
    decreases |trace|
  {
    if |trace| > 0 {
      var next := CheckCacheLatency(s, policy, trace[0].0, trace[0].1);
      CheckCacheLatencyKeepsInv(s, policy, trace[0].0, trace[0].1);
      CheckCacheLatencyCounts(s, policy, trace[0].0, trace[0].1);
      RunKeepsInv(next, policy, trace[1..]);
    }
  }

  /** The constructor's state satisfies the invariant when the statistics start consistent. */
  lemma InitSatisfiesInv(cacheSize: nat, maxPinnedSize: nat, pinThreshold: nat, stats: Stats)
    requires 0 <= stats.misses <= stats.accesses && stats.pinnedCount == 0
    ensures Inv(Init(cacheSize, maxPinnedSize, pinThreshold, stats))
    ensures IsEmpty(Init(cacheSize, maxPinnedSize, pinThreshold, stats)) <==> cacheSize > 0
  {
  }

  // --------------------------------------------------------------- scenario

  /** A phase law that leaves the threshold where it is. */
  function Steady(lo: nat, hi: nat): PhasePolicy
  {
    PhasePolicy((v: PhaseView) => v.pinThreshold, lo, hi)
  }

  /** A state of the two-entry cache with one pin slot and threshold 3. */
  function Small(cache: map<Addr, Addr>, pinned: set<Addr>, history: map<Addr, nat>, lru: map<Addr, nat>, seqNo: nat, stats: Stats): Cache
  {
    Cache(cache, 2, pinned, 1, history, 3, lru, seqNo, stats)
  }

  const S1: Cache := Small(map[1 := 100], {}, map[1 := 1], map[1 := 1], 1, Stats(1, 1, 0))
  const S2: Cache := Small(map[1 := 100, 2 := 200], {}, map[1 := 1, 2 := 1], map[1 := 1, 2 := 2], 2, Stats(2, 2, 0))
  const S3: Cache := Small(map[1 := 100, 2 := 200], {}, map[1 := 2, 2 := 1], map[1 := 3, 2 := 2], 3, Stats(3, 2, 0))
  const S4: Cache := Small(map[1 := 100, 2 := 200], {1}, map[1 := 3, 2 := 1], map[1 := 4, 2 := 2], 4, Stats(4, 2, 1))
  const S5: Cache := Small(map[1 := 100, 3 := 300], {1}, map[1 := 3, 3 := 1], map[1 := 4, 3 := 5], 5, Stats(5, 3, 1))

  lemma ScenarioStep1()
    ensures CheckCacheLatency(Init(2, 1, 3, Stats(0, 0, 0)), Steady(1, 3), 1, 100) == S1
  {
    var m := CountMiss(CountAccess(Init(2, 1, 3, Stats(0, 0, 0))));
    assert Miss(CountAccess(Init(2, 1, 3, Stats(0, 0, 0))), 1, 100) == RecordUse(Insert(m, 1, 100), 1);
  }

  lemma ScenarioStep2()
    ensures CheckCacheLatency(S1, Steady(1, 3), 2, 200) == S2
  {
    var m := CountMiss(CountAccess(S1));
    assert IsEmpty(m);
    var u := RecordUse(Insert(m, 2, 200), 2);
    assert u.cache == S2.cache;
    assert u.accessHistory == S2.accessHistory;
    assert u.lruTable == S2.lruTable;
  }

  lemma ScenarioStep3()
    ensures CheckCacheLatency(S2, Steady(1, 3), 1, 100) == S3
  {
    var u := RecordUse(CountAccess(S2), 1);
    assert u.accessHistory == S3.accessHistory;
    assert u.lruTable == S3.lruTable;
  }

  lemma ScenarioStep4()
    ensures CheckCacheLatency(S3, Steady(1, 3), 1, 100) == S4
  {
    var u := IncreaseCount(UpdateLRUCount(CountAccess(S3), 1), 1);
    assert u.accessHistory == S4.accessHistory;
    assert u.lruTable == S4.lruTable;
    assert TryPin(u, 1) == Pin(u, 1);
  }

  /** With 1 pinned, the only eviction candidate of the full cache is 2. */
  lemma ScenarioVictim(full: Cache)
    requires full.cache == S4.cache && full.pinnedList == {1}
    ensures Victim(full) == 2
  {
    assert Candidates(full) == {2} by {
      assert forall x :: x in full.cache.Keys - full.pinnedList <==> x in {2 as Addr};
    }
  }

  /** The miss on 3 evicts 2 and keeps the pinned 1 with its history. */
  lemma ScenarioEvict()
    ensures var r := MakeRoom(CountMiss(CountAccess(S4)));
      && r == Small(map[1 := 100], {1}, map[1 := 3], map[1 := 4], 4, Stats(5, 3, 1))
  {
    var m := CountMiss(CountAccess(S4));
    assert !IsEmpty(m);
    ScenarioVictim(m);
    var r := Invalidate(m, 2);
    assert r.cache == map[1 := 100];
    assert r.accessHistory == map[1 := 3];
    assert r.lruTable == map[1 := 4];
  }

  lemma ScenarioStep5()
    ensures CheckCacheLatency(S4, Steady(1, 3), 3, 300) == S5
  {
    ScenarioEvict();
    var r := Small(map[1 := 100], {1}, map[1 := 3], map[1 := 4], 4, Stats(5, 3, 1));
    var u := RecordUse(Insert(r, 3, 300), 3);
    assert u.cache == S5.cache;
    assert u.accessHistory == S5.accessHistory;
    assert u.lruTable == S5.lruTable;
    assert Miss(CountAccess(S4), 3, 300) == u;
  }

  /**
   * Two entries, one pin slot, threshold 3: after the lookups 1, 2, 1, 1, 3
   * address 1 has reached the threshold and is pinned, so 2 is the only
   * eviction candidate when 3 misses (and, having the older stamp, it is
   * also the entry plain LRU would pick); five accesses, three misses, one
   * pin.
   */
  lemma Scenario()
    ensures var t := Run(Init(2, 1, 3, Stats(0, 0, 0)), Steady(1, 3),
                         [(1, 100), (2, 200), (1, 100), (1, 100), (3, 300)]);
      && t.cache == map[1 := 100, 3 := 300]
      && t.pinnedList == {1}
      && t.stats == Stats(5, 3, 1)
  {
    var p := Steady(1, 3);
    var trace: seq<(Addr, Addr)> := [(1, 100), (2, 200), (1, 100), (1, 100), (3, 300)];
    ScenarioStep1();
    ScenarioStep2();
    ScenarioStep3();
    ScenarioStep4();
    ScenarioStep5();
    assert Run(S5, p, trace[5..]) == S5;
    assert trace[4..][1..] == trace[5..];
    assert trace[3..][1..] == trace[4..];
    assert trace[2..][1..] == trace[3..];
    assert trace[1..][1..] == trace[2..];
  }
}
