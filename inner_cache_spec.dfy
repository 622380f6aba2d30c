/**
 * Functional specification of the x86 TLB's inner page-table-entry cache
 * (`TLB::InnerCache`). The state `Cache` holds the same four containers as the
 * class (`cache`, `pinnedList`, `accessHistory`, `lruTable`), its counters and
 * the three statistics it reports; every operation of the class is a function
 * from state to state here, and the lemmas state what each one promises.
 */
module InnerCacheSpec {

  /** `Addr` is a 64-bit unsigned integer in gem5. */
  newtype Addr = x: int | 0 <= x < 0x1_0000_0000_0000_0000

  /** The inner-cache part of the TLB's statistics group. */
  datatype Stats = Stats(accesses: int, misses: int, pinnedCount: int)

  datatype Cache = Cache(
    cache: map<Addr, Addr>,          // virtual -> physical
    cacheSize: nat,
    pinnedList: set<Addr>,
    maxPinnedSize: nat,
    accessHistory: map<Addr, nat>,   // virtual -> number of accesses
    pinThreshold: nat,
    lruTable: map<Addr, nat>,        // virtual -> sequence number of last access
    currentLRUSeq: nat,
    stats: Stats)

  /** What the phase controller may look at when it re-evaluates the threshold. */
  datatype PhaseView = PhaseView(accesses: int, misses: int, pinnedCount: int, resident: nat, pinThreshold: nat)

  /**
   * `tlb.hh` declares `checkPinningPhase` without a body, so its
   * threshold-adjustment law is a parameter. Whatever `law` proposes is kept
   * within `[lo, hi]`.
   */
  datatype PhasePolicy = PhasePolicy(law: PhaseView -> nat, lo: nat, hi: nat)

  /** The state the constructor leaves: empty containers, sequence counter 0. */
  function Init(cacheSize: nat, maxPinnedSize: nat, pinThreshold: nat, stats: Stats): Cache
  {
    Cache(map[], cacheSize, {}, maxPinnedSize, map[], pinThreshold, map[], 0, stats)
  }

  // ---------------------------------------------------------------- queries

  /** There is room for one more entry. */
  predicate IsEmpty(s: Cache)
  {
    |s.cache| < s.cacheSize
  }

  /** One more entry may be pinned. */
  predicate IsPinningEmpty(s: Cache)
  {
    |s.pinnedList| < s.maxPinnedSize
  }

  /** The translation `vAddr -> pAddr` is resident. */
  predicate CheckExistence(s: Cache, vAddr: Addr, pAddr: Addr)
  {
    vAddr in s.cache && s.cache[vAddr] == pAddr
  }

  predicate CheckPin(s: Cache, vAddr: Addr)
  {
    vAddr in s.pinnedList
  }

  /** Access count, 0 for an address without history (as `operator[]` yields). */
  function AccessCount(s: Cache, vAddr: Addr): nat
  {
    if vAddr in s.accessHistory then s.accessHistory[vAddr] else 0
  }

  /** LRU stamp, 0 for an address without one. */
  function LruOf(s: Cache, vAddr: Addr): nat
  {
    if vAddr in s.lruTable then s.lruTable[vAddr] else 0
  }

  // ------------------------------------------------------ single-table view

  /** One resident translation with its metadata, as a single record. */
  datatype Entry = Entry(pAddr: Addr, accessCount: nat, lruSeq: nat, pinned: bool)

  /** The four containers read as one table keyed by virtual address. */
  function Table(s: Cache): map<Addr, Entry>
  {
    map v | v in s.cache :: Entry(s.cache[v], AccessCount(s, v), LruOf(s, v), v in s.pinnedList)
  }

  /** The four containers rebuilt from one table; counters and limits are taken from `s`. */
  function WithTable(s: Cache, t: map<Addr, Entry>): Cache
  {
    s.(cache := (map v | v in t :: t[v].pAddr),
       pinnedList := (set v | v in t && t[v].pinned),
       accessHistory := (map v | v in t :: t[v].accessCount),
       lruTable := (map v | v in t :: t[v].lruSeq))
  }

  // -------------------------------------------------------------- invariant

  /** The pin set and both metadata maps cover exactly the resident keys. */
  ghost predicate Coherent(s: Cache)
  {
    && s.pinnedList <= s.cache.Keys
    && s.accessHistory.Keys == s.cache.Keys
    && s.lruTable.Keys == s.cache.Keys
  }

  /** Every stamp was handed out by the counter, and no two entries share one. */
  ghost predicate StampsFresh(s: Cache)
  {
    && (forall v :: v in s.lruTable ==> 1 <= s.lruTable[v] <= s.currentLRUSeq)
    && (forall v, w :: v in s.lruTable && w in s.lruTable && v != w ==> s.lruTable[v] != s.lruTable[w])
  }

  ghost predicate Bounded(s: Cache)
  {
    |s.cache| <= s.cacheSize && |s.pinnedList| <= s.maxPinnedSize
  }

  ghost predicate StatsAgree(s: Cache)
  {
    0 <= s.stats.misses <= s.stats.accesses && s.stats.pinnedCount == |s.pinnedList|
  }

  ghost predicate Inv(s: Cache)
  {
    Coherent(s) && StampsFresh(s) && Bounded(s) && StatsAgree(s)
  }

  // ------------------------------------------------------------- operations

  function Insert(s: Cache, vAddr: Addr, pAddr: Addr): Cache
  {
    s.(cache := s.cache[vAddr := pAddr])
  }

  function IncreaseCount(s: Cache, vAddr: Addr): Cache
  {
    s.(accessHistory := s.accessHistory[vAddr := AccessCount(s, vAddr) + 1])
  }

  /** Stamps `vAddr` with `++currentLRUSeq`. */
  function UpdateLRUCount(s: Cache, vAddr: Addr): Cache
  {
    s.(currentLRUSeq := s.currentLRUSeq + 1, lruTable := s.lruTable[vAddr := s.currentLRUSeq + 1])
  }

  function Pin(s: Cache, vAddr: Addr): Cache
  {
    if vAddr in s.pinnedList then s
    else s.(pinnedList := s.pinnedList + {vAddr},
            stats := s.stats.(pinnedCount := s.stats.pinnedCount + 1))
  }

  function Unpin(s: Cache, vAddr: Addr): Cache
  {
    if vAddr !in s.pinnedList then s
    else s.(pinnedList := s.pinnedList - {vAddr},
            stats := s.stats.(pinnedCount := s.stats.pinnedCount - 1))
  }

  /** Pins a resident, unpinned entry whose count reached the threshold, if the pin set has room. */
  function TryPin(s: Cache, vAddr: Addr): Cache
  {
    if !CheckPin(s, vAddr) && IsPinningEmpty(s) && vAddr in s.cache && AccessCount(s, vAddr) >= s.pinThreshold
    then Pin(s, vAddr)
    else s
  }

  /** Drops the entry for `vAddr` with all its metadata, unpinning it first. */
  function Invalidate(s: Cache, vAddr: Addr): Cache
  {
    var u := Unpin(s, vAddr);
    u.(cache := u.cache - {vAddr},
       accessHistory := u.accessHistory - {vAddr},
       lruTable := u.lruTable - {vAddr})
  }

  /** The entries eviction may choose from: the unpinned ones, or all of them if every entry is pinned. */
  function Candidates(s: Cache): set<Addr>
  {
    var unpinned := s.cache.Keys - s.pinnedList;
    if unpinned != {} then unpinned else s.cache.Keys
  }

  ghost predicate LeastRecent(s: Cache, k: Addr, among: set<Addr>)
  {
    k in among && forall j :: j in among ==> LruOf(s, k) <= LruOf(s, j)
  }

  lemma NoMemberMeansEmpty(a: set<Addr>)
    requires forall x :: x !in a
    ensures a == {}
  {
    assert forall x :: x in a <==> x in {};
  }

  lemma NonEmptyHasMember(a: set<Addr>)
    requires a != {}
    ensures exists x :: x in a
  {
    if forall x :: x !in a {
      NoMemberMeansEmpty(a);
      assert false;
    }
  }

  lemma {:induction false} LeastRecentExists(s: Cache, among: set<Addr>)
    requires among != {}
    ensures exists k :: LeastRecent(s, k, among)
    decreases among
  {
    NonEmptyHasMember(among);
    var x :| x in among;
    if among == {x} {
      assert LeastRecent(s, x, among);
    } else {
      LeastRecentExists(s, among - {x});
      var k :| LeastRecent(s, k, among - {x});
      if LruOf(s, x) < LruOf(s, k) {
        assert LeastRecent(s, x, among);
      } else {
        assert LeastRecent(s, k, among);
      }
    }
  }

  /** The replacement policy's choice: the least recently used candidate. */
  ghost function Victim(s: Cache): (k: Addr)
    requires |s.cache| > 0
    ensures k in s.cache && LeastRecent(s, k, Candidates(s))
  {
    LeastRecentExists(s, Candidates(s));
    var k :| LeastRecent(s, k, Candidates(s));
    k
  }

  /** Removes the victim; a no-op on an empty cache (only possible when `cacheSize` is 0). */
  ghost function Evict(s: Cache): Cache
  {
    if |s.cache| == 0 then s else Invalidate(s, Victim(s))
  }

  function View(s: Cache): PhaseView
  {
    PhaseView(s.stats.accesses, s.stats.misses, s.stats.pinnedCount, |s.cache|, s.pinThreshold)
  }

  function Clamp(x: nat, lo: nat, hi: nat): nat
  {
    if x < lo then lo else if hi < x then hi else x
  }

  function CheckPinningPhase(s: Cache, policy: PhasePolicy): Cache
  {
    s.(pinThreshold := Clamp(policy.law(View(s)), policy.lo, policy.hi))
  }

  /** What a hit, or a freshly inserted entry, goes through: stamp, count, try to pin. */
  function RecordUse(s: Cache, vAddr: Addr): Cache
  {
    TryPin(IncreaseCount(UpdateLRUCount(s, vAddr), vAddr), vAddr)
  }

  function CountAccess(s: Cache): Cache
  {
    s.(stats := s.stats.(accesses := s.stats.accesses + 1))
  }

  function CountMiss(s: Cache): Cache
  {
    s.(stats := s.stats.(misses := s.stats.misses + 1))
  }

  /** Evicts one entry when the cache is full. */
  ghost function MakeRoom(s: Cache): Cache
  {
    if IsEmpty(s) then s else Evict(s)
  }

  /** The miss path: drop a stale mapping, count the miss, make room, then admit the translation. */
  ghost function Miss(s: Cache, vAddr: Addr, pAddr: Addr): Cache
  {
    var cleared := if vAddr in s.cache then Invalidate(s, vAddr) else s;
    var roomy := MakeRoom(CountMiss(cleared));
    if IsEmpty(roomy) then RecordUse(Insert(roomy, vAddr, pAddr), vAddr) else roomy
  }

  /** One lookup of `vAddr -> pAddr`, the class's single entry point. */
  ghost function CheckCacheLatency(s: Cache, policy: PhasePolicy, vAddr: Addr, pAddr: Addr): Cache
  {
    var counted := CountAccess(s);
    var served := if CheckExistence(s, vAddr, pAddr) then RecordUse(counted, vAddr) else Miss(counted, vAddr, pAddr);
    CheckPinningPhase(served, policy)
  }

  /** A sequence of lookups, in order. */
  ghost function Run(s: Cache, policy: PhasePolicy, trace: seq<(Addr, Addr)>): Cache
    decreases |trace|
  {
    if |trace| == 0 then s
    else Run(CheckCacheLatency(s, policy, trace[0].0, trace[0].1), policy, trace[1..])
  }
}
