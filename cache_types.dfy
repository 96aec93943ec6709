/** Keys, values and entries of the emission cache, and the eviction order on entries. */
module CacheTypes {

  /** Go's `uint8`. */
  newtype uint8 = x: int | 0 <= x < 256

  /** The cached `float64` emissions figure. The cache never computes with it; it is only stored and returned. */
  type Emissions = real

  /** Composite lookup key: the (inventory id, UTC date) pair. */
  datatype CacheKey = CacheKey(inventoryId: string, utcDatetime: string)

  /** What is cached for a key: the figure and the priority of the request row that produced it. */
  datatype CacheValue = CacheValue(emissions: Emissions, priority: uint8)

  /** Go's zero value `CacheValue{}`, returned by a miss. */
  const ZeroValue := CacheValue(0.0, 0)

  /**
   * One cache entry. The same object is referenced from the key map and from the
   * eviction heap; only `index` (its heap slot) changes after creation.
   * Times are integer clock readings.
   */
  class CacheItem {
    const key: CacheKey
    const value: CacheValue
    const expiry: int
    const timestamp: int
    var index: int

    constructor (key: CacheKey, value: CacheValue, expiry: int, timestamp: int)
      ensures this.key == key && this.value == value
      ensures this.expiry == expiry && this.timestamp == timestamp
      ensures index == 0
    {
      this.key := key;
      this.value := value;
      this.expiry := expiry;
      this.timestamp := timestamp;
      index := 0;
    }
  }

  /** An entry is served by a read at `now` unless its deadline is strictly before `now`. */
  predicate Live(item: CacheItem, now: int)
  {
    !(item.expiry < now)
  }

  /**
   * Reference definition of the eviction order: an entry's rank is its negated
   * priority followed by its creation time, compared lexicographically; the entry
   * of least rank is evicted first.
   */
  function Rank(item: CacheItem): (r: (int, int))
  {
    (-(item.value.priority as int), item.timestamp)
  }

  predicate RankBelow(a: (int, int), b: (int, int))
  {
    a.0 < b.0 || (a.0 == b.0 && a.1 < b.1)
  }

  /** `a` is a strictly earlier eviction candidate than `b`. */
  predicate EvictsBefore(a: CacheItem, b: CacheItem)
  {
    RankBelow(Rank(a), Rank(b))
  }

  /** The eviction order is a strict weak order: ties (same priority and same creation time) are incomparable. */
  lemma EvictionOrderIsStrictWeak(a: CacheItem, b: CacheItem, c: CacheItem)
    ensures !EvictsBefore(a, a)
    ensures EvictsBefore(a, b) ==> !EvictsBefore(b, a)
    ensures EvictsBefore(a, b) && EvictsBefore(b, c) ==> EvictsBefore(a, c)
    ensures !EvictsBefore(a, b) && !EvictsBefore(b, c) ==> !EvictsBefore(a, c)
    ensures !EvictsBefore(a, b) && !EvictsBefore(b, a) <==> Rank(a) == Rank(b)
  {
  }
}
