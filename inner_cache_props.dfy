/**
 * What the inner cache's operations promise, proved about the functional
 * specification in `InnerCacheSpec`.
 */
module InnerCacheProps {
  import opened InnerCacheSpec

  /** Everything the cache records about `w` is the same in `s` and `t`. */
  ghost predicate SameEntry(s: Cache, t: Cache, w: Addr)
  {
    && (w in s.cache <==> w in t.cache)
    && (w in s.cache ==> t.cache[w] == s.cache[w])
    && AccessCount(t, w) == AccessCount(s, w)
    && LruOf(t, w) == LruOf(s, w)
    && (CheckPin(t, w) <==> CheckPin(s, w))
  }

  lemma SubsetCardinality(a: set<Addr>, b: set<Addr>)
    requires a <= b
    ensures |a| <= |b|
  {
    assert b == a + (b - a);
  }

  // ------------------------------------------------------ single-table view

  /** Reading the containers as one table and writing it back changes nothing. */
  lemma TableRoundTrip(s: Cache)
    requires Coherent(s)
    ensures WithTable(s, Table(s)) == s
  {
    var r := WithTable(s, Table(s));
    assert r.cache == s.cache;
    assert r.pinnedList == s.pinnedList;
    assert r.accessHistory == s.accessHistory;
    assert r.lruTable == s.lruTable;
  }

  /** Any table is faithfully represented by the four containers, which it keeps coherent. */
  lemma WithTableRoundTrip(s: Cache, t: map<Addr, Entry>)
    ensures Coherent(WithTable(s, t))
    ensures Table(WithTable(s, t)) == t
  {
    var r := WithTable(s, t);
    assert r.cache.Keys == t.Keys;
    assert r.accessHistory.Keys == t.Keys;
    assert r.lruTable.Keys == t.Keys;
    assert Table(r).Keys == t.Keys;
    forall v | v in t
      ensures Table(r)[v] == t[v]
    {
      assert Table(r)[v] == Entry(t[v].pAddr, t[v].accessCount, t[v].lruSeq, t[v].pinned);
    }
  }

  // ------------------------------------------------------ single operations

  /** After `insert(v, p)` the entry maps `v` to `p`; no other mapping changes. */
  lemma InsertMaps(s: Cache, vAddr: Addr, pAddr: Addr)
    ensures CheckExistence(Insert(s, vAddr, pAddr), vAddr, pAddr)
    ensures forall w :: w != vAddr ==> SameEntry(s, Insert(s, vAddr, pAddr), w)
    ensures |Insert(s, vAddr, pAddr).cache| == |s.cache| + (if vAddr in s.cache then 0 else 1)
  {
  }

  /** `increaseCount(v)` adds exactly one to `v`'s count and to no other address's. */
  lemma IncreaseCountBumpsOne(s: Cache, vAddr: Addr, w: Addr)
    ensures AccessCount(IncreaseCount(s, vAddr), w) == AccessCount(s, w) + (if w == vAddr then 1 else 0)
    ensures IncreaseCount(s, vAddr).cache == s.cache && IncreaseCount(s, vAddr).pinnedList == s.pinnedList
  {
  }

  /** `updateLRUCount(v)` gives `v` a stamp newer than every stamp handed out before. */
  lemma UpdateLRUCountStampsLatest(s: Cache, vAddr: Addr)
    requires StampsFresh(s)
    ensures var t := UpdateLRUCount(s, vAddr);
      && t.currentLRUSeq > s.currentLRUSeq
      && (forall w :: w in s.lruTable ==> s.lruTable[w] < LruOf(t, vAddr))
      && (forall w :: w != vAddr ==> LruOf(t, w) == LruOf(s, w))
      && StampsFresh(t)
  {
  }

  /** `checkPin` after `pin(v)` / `unpin(v)`: only `v`'s pin state moves. */
  lemma PinUnpinTouchOnlyTheirAddress(s: Cache, vAddr: Addr, w: Addr)
    ensures CheckPin(Pin(s, vAddr), w) <==> (w == vAddr || CheckPin(s, w))
    ensures CheckPin(Unpin(s, vAddr), w) <==> (w != vAddr && CheckPin(s, w))
    ensures s.stats.pinnedCount == |s.pinnedList| ==> Pin(s, vAddr).stats.pinnedCount == |Pin(s, vAddr).pinnedList|
    ensures s.stats.pinnedCount == |s.pinnedList| ==> Unpin(s, vAddr).stats.pinnedCount == |Unpin(s, vAddr).pinnedList|
  {
  }

  /** `tryPin(v)` pins exactly a resident, qualifying address, and never overfills the pin set. */
  lemma TryPinRespectsLimit(s: Cache, vAddr: Addr)
    requires |s.pinnedList| <= s.maxPinnedSize && s.pinnedList <= s.cache.Keys
    ensures var t := TryPin(s, vAddr);
      && (CheckPin(t, vAddr) <==>
            CheckPin(s, vAddr) || (IsPinningEmpty(s) && vAddr in s.cache && AccessCount(s, vAddr) >= s.pinThreshold))
      && (forall w :: w != vAddr ==> (CheckPin(t, w) <==> CheckPin(s, w)))
      && |t.pinnedList| <= t.maxPinnedSize
      && t.pinnedList <= t.cache.Keys
  {
  }

  /** `invalidate(v)` drops `v` with its history and pin, and leaves every other entry alone. */
  lemma InvalidateDropsOnlyItsEntry(s: Cache, vAddr: Addr)
    ensures var t := Invalidate(s, vAddr);
      && vAddr !in t.cache && !CheckPin(t, vAddr) && AccessCount(t, vAddr) == 0
      && (forall w :: w != vAddr ==> SameEntry(s, t, w))
      && t.stats.accesses == s.stats.accesses && t.stats.misses == s.stats.misses
  {
  }

  lemma InvalidateKeepsCoherent(s: Cache, vAddr: Addr)
    requires Coherent(s)
    ensures Coherent(Invalidate(s, vAddr))
  {
  }

  lemma InvalidateKeepsStamps(s: Cache, vAddr: Addr)
    requires StampsFresh(s)
    ensures StampsFresh(Invalidate(s, vAddr))
  {
  }

  lemma InvalidateShrinks(s: Cache, vAddr: Addr)
    requires Coherent(s)
    ensures |Invalidate(s, vAddr).cache| == |s.cache| - (if vAddr in s.cache then 1 else 0)
    ensures |Invalidate(s, vAddr).pinnedList| == |s.pinnedList| - (if vAddr in s.pinnedList then 1 else 0)
  {
  }

  lemma InvalidateKeepsStats(s: Cache, vAddr: Addr)
    requires StatsAgree(s)
    ensures StatsAgree(Invalidate(s, vAddr))
  {
  }

  /** `invalidate(v)` keeps the invariant and shrinks the store by one when `v` was resident. */
  lemma InvalidateKeepsInv(s: Cache, vAddr: Addr)
    requires Inv(s)
    ensures Inv(Invalidate(s, vAddr))
    ensures |Invalidate(s, vAddr).cache| == |s.cache| - (if vAddr in s.cache then 1 else 0)
  {
    InvalidateKeepsCoherent(s, vAddr);
    InvalidateKeepsStamps(s, vAddr);
    InvalidateShrinks(s, vAddr);
    InvalidateKeepsStats(s, vAddr);
  }

  /**
   * `evict()` on a non-empty cache removes exactly one entry: the least
   * recently used unpinned one when there is one (pinned entries are then
   * untouched), the least recently used pinned one otherwise.
   */
  lemma EvictRemovesLeastRecent(s: Cache)
    requires |s.cache| > 0
    ensures var t := Evict(s); var k := Victim(s);
      && k in s.cache && k !in t.cache
      && (forall j :: j in s.cache && j !in s.pinnedList ==> LruOf(s, k) <= LruOf(s, j))
      && (forall j :: j in s.cache && s.cache.Keys <= s.pinnedList ==> LruOf(s, k) <= LruOf(s, j))
      && (forall w :: w != k ==> SameEntry(s, t, w))
      && (s.cache.Keys - s.pinnedList != {} ==> k !in s.pinnedList && t.pinnedList == s.pinnedList)
      && t.stats.accesses == s.stats.accesses && t.stats.misses == s.stats.misses
  {
    var k := Victim(s);
    InvalidateDropsOnlyItsEntry(s, k);
    if s.cache.Keys - s.pinnedList == {} {
      assert s.cache.Keys <= s.pinnedList by {
        forall j | j in s.cache ensures j in s.pinnedList {
          assert j !in s.cache.Keys - s.pinnedList;
        }
      }
    }
  }

  /** `evict()` keeps the invariant and, on a full cache with room for any entry, leaves `isEmpty()` true. */
  lemma EvictKeepsInv(s: Cache)
    requires Inv(s)
    ensures Inv(Evict(s))
    ensures |Evict(s).cache| == if |s.cache| > 0 then |s.cache| - 1 else 0
    ensures |s.cache| == s.cacheSize > 0 ==> IsEmpty(Evict(s))
  {
    if |s.cache| > 0 {
      InvalidateKeepsInv(s, Victim(s));
    }
  }

  /** Two least recently used candidates are the same entry: stamps are unique. */
  lemma VictimUnique(s: Cache, a: Addr, b: Addr)
    requires Coherent(s) && StampsFresh(s)
    requires LeastRecent(s, a, Candidates(s)) && LeastRecent(s, b, Candidates(s))
    ensures a == b
  {
    assert LruOf(s, a) == LruOf(s, b);
  }

  /** `checkPinningPhase` keeps the threshold within the policy's range and changes nothing else. */
  lemma CheckPinningPhaseBounded(s: Cache, policy: PhasePolicy)
    requires policy.lo <= policy.hi
    ensures var t := CheckPinningPhase(s, policy);
      && policy.lo <= t.pinThreshold <= policy.hi
      && t == s.(pinThreshold := t.pinThreshold)
  {
  }

  // ------------------------------------------------------------- one use

  /** The containers' shape once the resident `vAddr` may still lack its history and stamp. */
  ghost predicate ShapeReady(t: Cache, vAddr: Addr)
  {
    && vAddr in t.cache
    && t.pinnedList <= t.cache.Keys
    && t.accessHistory.Keys + {vAddr} == t.cache.Keys
    && t.lruTable.Keys + {vAddr} == t.cache.Keys
  }

  /** The invariant, except that the resident `vAddr` may still lack its history and stamp. */
  ghost predicate ReadyForUse(t: Cache, vAddr: Addr)
  {
    ShapeReady(t, vAddr) && StampsFresh(t) && Bounded(t) && StatsAgree(t)
  }

  lemma ResidentIsReadyForUse(s: Cache, vAddr: Addr)
    requires Inv(s) && vAddr in s.cache
    ensures ReadyForUse(s, vAddr)
  {
  }

  lemma InsertShapeReady(s: Cache, vAddr: Addr, pAddr: Addr)
    requires Coherent(s)
    ensures ShapeReady(Insert(s, vAddr, pAddr), vAddr)
  {
    var t := Insert(s, vAddr, pAddr);
    assert t.cache.Keys == s.cache.Keys + {vAddr};
  }

  /** Inserting a new translation into a cache with room leaves it ready for its first use. */
  lemma InsertIsReadyForUse(s: Cache, vAddr: Addr, pAddr: Addr)
    requires Inv(s) && vAddr !in s.cache && IsEmpty(s)
    ensures ReadyForUse(Insert(s, vAddr, pAddr), vAddr)
  {
    InsertShapeReady(s, vAddr, pAddr);
    InsertKeepsCounts(s, vAddr, pAddr);
  }

  lemma InsertKeepsCounts(s: Cache, vAddr: Addr, pAddr: Addr)
    requires StampsFresh(s) && StatsAgree(s) && |s.pinnedList| <= s.maxPinnedSize
    requires vAddr !in s.cache && |s.cache| < s.cacheSize
    ensures StampsFresh(Insert(s, vAddr, pAddr)) && Bounded(Insert(s, vAddr, pAddr)) && StatsAgree(Insert(s, vAddr, pAddr))
  {
  }

  lemma UseKeepsCoherent(t: Cache, vAddr: Addr)
    requires ShapeReady(t, vAddr)
    ensures Coherent(RecordUse(t, vAddr))
  {
    var u1 := UpdateLRUCount(t, vAddr);
    assert u1.lruTable.Keys == t.cache.Keys;
    var u2 := IncreaseCount(u1, vAddr);
    assert u2.accessHistory.Keys == t.cache.Keys;
  }

  lemma UseKeepsStamps(t: Cache, vAddr: Addr)
    requires StampsFresh(t)
    ensures StampsFresh(RecordUse(t, vAddr))
  {
    UpdateLRUCountStampsLatest(t, vAddr);
  }

  lemma UseKeepsBounds(t: Cache, vAddr: Addr)
    requires ReadyForUse(t, vAddr)
    ensures Bounded(RecordUse(t, vAddr)) && StatsAgree(RecordUse(t, vAddr))
  {
    TryPinRespectsLimit(IncreaseCount(UpdateLRUCount(t, vAddr), vAddr), vAddr);
  }

  /** Stamping, counting and trying to pin a resident address restores the invariant. */
  lemma RecordUseKeepsInv(t: Cache, vAddr: Addr)
    requires ReadyForUse(t, vAddr)
    ensures Inv(RecordUse(t, vAddr))
  {
    UseKeepsCoherent(t, vAddr);
    UseKeepsStamps(t, vAddr);
    UseKeepsBounds(t, vAddr);
  }
}
