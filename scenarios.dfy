/**
 * The repository's handler tests, restated as proved scenarios. Clock values
 * are nanoseconds, as Go's `time.Duration`.
 */
module Scenarios {
  import opened CacheTypes
  import opened Caches
  import opened Handler

  const Second := 1_000_000_000
  const Day := 24 * 3600 * Second

  const NyTimes := CacheKey("nytimes.com", "2024-12-30")
  const Yahoo := CacheKey("yahoo.com", "2024-12-30")
  const Guardian := CacheKey("theguardian.com", "2024-12-30")

  const NyTimesRow := Inventory("nytimes.com", "2024-12-30", 1)

  /** The two-row request of the tests, with the given priority for the second row. */
  function Pair(priority: uint8): (rows: seq<Inventory>)
    ensures |rows| == 2 && KeyOf(rows[0]) == NyTimes && KeyOf(rows[1]) == Yahoo
  {
    [NyTimesRow, Inventory("yahoo.com", "2024-12-30", priority)]
  }

  /** The downstream answer assumed for the two-row request: one figure per publisher. */
  const PairAnswer := [EmissionData("nytimes.com", 1.5), EmissionData("yahoo.com", 2.5)]

  /** In an empty cache every row misses: nothing is served and every id is in the miss map. */
  lemma ColdBatch(rows: seq<Inventory>, now: int)
    ensures HitRows(rows, map[], now) == []
    ensures forall row :: row in rows ==> row.inventoryId in MissMap(rows, map[], now)
    ensures rows != [] ==> |MissMap(rows, map[], now)| > 0
  {
  }

  /** In an empty cache the two-row request misses both rows, each under its own id. */
  lemma PairMisses(priority: uint8, now: int)
    ensures MissMap(Pair(priority), map[], now) == map["nytimes.com" := Pair(priority)[0], "yahoo.com" := Pair(priority)[1]]
  {
  }

  /** The write-backs of the cold two-row request: one per row, in answer order. */
  lemma PairWrites(priority: uint8, ttl: int, now: int)
    ensures WriteBacks(PairAnswer, MissMap(Pair(priority), map[], now), ttl, now)
            == [Write(NyTimes, CacheValue(1.5, 1), ttl, now), Write(Yahoo, CacheValue(2.5, priority), ttl, now)]
  {
  }

  /**
   * After the cold two-row request evicts nothing, exactly its two keys are
   * stored, each with the fetched figure, the row's priority and the
   * request's deadline.
   */
  lemma PairStored(priority: uint8, ttl: int, now: int, items: map<CacheKey, CacheItem>)
    requires Applied(map[], WriteBacks(PairAnswer, MissMap(Pair(priority), map[], now), ttl, now), items)
    ensures items.Keys == {NyTimes, Yahoo}
    ensures items[NyTimes].value == CacheValue(1.5, 1) && items[NyTimes].expiry == now + ttl
    ensures items[Yahoo].value == CacheValue(2.5, priority) && items[Yahoo].expiry == now + ttl
  {
    var ny := Write(NyTimes, CacheValue(1.5, 1), ttl, now);
    var yahoo := Write(Yahoo, CacheValue(2.5, priority), ttl, now);
    PairWrites(priority, ttl, now);
    var ws := [ny, yahoo];
    assert ws[..1] == [ny];
    assert LastWrite(ws, NyTimes) == Some(ny) && LastWrite(ws, Yahoo) == Some(yahoo);
    forall k | k in items
      ensures k == NyTimes || k == Yahoo
    {
      assert LastWrite(ws, k).Some?;
    }
    TwoKeys(items, NyTimes, Yahoo);
  }

  /** A map whose keys are among `a` and `b` and which holds both has exactly these keys. */
  lemma TwoKeys<V>(m: map<CacheKey, V>, a: CacheKey, b: CacheKey)
    requires a in m && b in m
    requires forall k :: k in m ==> k == a || k == b
    ensures m.Keys == {a, b}
  {
  }

  /** After the cold one-row request evicts nothing, its key is stored with the request's deadline. */
  lemma SingleStored(ttl: int, now: int, items: map<CacheKey, CacheItem>)
    requires Applied(map[], WriteBacks([EmissionData("nytimes.com", 1.5)], MissMap([NyTimesRow], map[], now), ttl, now), items)
    ensures NyTimes in items && items[NyTimes].expiry == now + ttl
  {
  }

  /** When both keys of the two-row request are live, it is served whole from the cache, in request order. */
  lemma PairServed(priority: uint8, items: map<CacheKey, CacheItem>, now: int)
    requires NyTimes in items && Live(items[NyTimes], now)
    requires Yahoo in items && Live(items[Yahoo], now)
    ensures MissMap(Pair(priority), items, now) == map[]
    ensures HitRows(Pair(priority), items, now)
            == [EmissionData("nytimes.com", items[NyTimes].value.emissions), EmissionData("yahoo.com", items[Yahoo].value.emissions)]
  {
  }

  /**
   * A cold request: every row of `rows` misses in an empty cache, so the
   * response is the downstream answer and one fetch is made, with the miss
   * map of all the rows; with room for the answer, nothing is evicted.
   * `fetch` stands for the downstream service, which answers `answer`.
   */
  method ColdRequest(server: Server, rows: seq<Inventory>, now: int,
                     fetch: map<string, Inventory> -> FetchResult, answer: seq<EmissionData>)
    returns (resp: Response, fetched: seq<map<string, Inventory>>)
    requires server.cache.Valid() && server.cache.items == map[]
    requires rows != [] && |answer| <= server.cache.maxSize
    requires fetch(MissMap(rows, map[], now)) == Fetched(answer)
    modifies server.cache, server.cache.pq, server.cache.pq.Repr
    ensures server.cache.Valid()
    ensures old(server.cache.pq.Repr) <= server.cache.pq.Repr && fresh(server.cache.pq.Repr - old(server.cache.pq.Repr))
    ensures resp == Ok(answer) && fetched == [MissMap(rows, old(server.cache.items), now)]
    ensures Applied(old(server.cache.items), WriteBacks(answer, MissMap(rows, old(server.cache.items), now), server.cacheExpiration, now),
                    server.cache.items)
  {
    ColdBatch(rows, now);
    ghost var misses := MissMap(rows, server.cache.items, now);
    assert |misses| > 0 && fetch(misses) == Fetched(answer);
    assert |server.cache.items| + |answer| <= server.cache.maxSize;
    ghost var ws := WriteBacks(answer, misses, server.cacheExpiration, now);
    ghost var hits := HitRows(rows, server.cache.items, now);
    assert hits + answer == answer;
    resp, fetched := server.EmissionHandler(rows, now, fetch);
    assert resp == Ok(hits + answer);
    assert Applied(old(server.cache.items), ws, server.cache.items);
  }

  /**
   * A repeated request is answered from the cache: the first request misses
   * both rows, fetches once and writes both back; the same request a second
   * later makes no fetch and serves both rows from the cache, in request order.
   */
  method RepeatedRequestScenario() returns (first: Response, second: Response,
                                            fetchedFirst: seq<map<string, Inventory>>,
                                            fetchedSecond: seq<map<string, Inventory>>)
    ensures |fetchedFirst| == 1 && fetchedSecond == []
    ensures first == second == Ok([EmissionData("nytimes.com", 1.5), EmissionData("yahoo.com", 2.5)])
  {
    var server := new Server(0x4000_0000, Day);
    var rows := Pair(1);
    first, fetchedFirst := ColdRequest(server, rows, 0, m => Fetched(PairAnswer), PairAnswer);
    PairStored(1, Day, 0, server.cache.items);
    PairServed(1, server.cache.items, Second);
    second, fetchedSecond := server.EmissionHandler(rows, Second, m => FetchFailed);
  }

  /**
   * Expiry: an entry written back by a request with a ten-second time-to-live
   * is a miss eleven seconds later, and the expiry step run then removes it.
   */
  method ExpiryScenario() returns (foundBefore: bool, foundAfter: bool, storedAfter: bool)
    ensures !foundBefore && !foundAfter && !storedAfter
  {
    var server := new Server(0x4000_0000, 10 * Second);
    var answer := [EmissionData("nytimes.com", 1.5)];
    var resp, fetched := ColdRequest(server, [NyTimesRow], 0, m => Fetched(answer), answer);
    SingleStored(10 * Second, 0, server.cache.items);
    var cache := server.cache;
    var value: CacheValue;
    value, foundBefore := cache.Get(NyTimes, 11 * Second);
    cache.ExpireIfDue(NyTimes, 11 * Second);
    value, foundAfter := cache.Get(NyTimes, 11 * Second);
    storedAfter := NyTimes in cache.items;
  }

  /**
   * The first request of the priority test: a priority-1 and a priority-2
   * row, both missed and written back into an empty cache of capacity 2.
   */
  method FillToCapacity() returns (server: Server)
    ensures fresh(server.cache) && fresh(server.cache.pq) && fresh(server.cache.pq.Repr)
    ensures server.cache.Valid() && server.cache.maxSize == 2 && server.cacheExpiration == Day
    ensures server.cache.items.Keys == {NyTimes, Yahoo}
    ensures server.cache.items[NyTimes].value.priority == 1 && server.cache.items[Yahoo].value.priority == 2
    ensures server.cache.items[NyTimes].expiry == Day && server.cache.items[Yahoo].expiry == Day
  {
    server := new Server(2, Day);
    var resp, fetched := ColdRequest(server, Pair(2), 0, m => Fetched(PairAnswer), PairAnswer);
    PairStored(2, Day, 0, server.cache.items);
  }

  /**
   * The second request of the priority test, issued as the write-back it
   * causes: a priority-1 entry into the full cache evicts the priority-2 one.
   */
  method GuardianWrite(cache: Cache)
    requires cache.Valid() && cache.maxSize == 2 && cache.items.Keys == {NyTimes, Yahoo}
    requires cache.items[NyTimes].value.priority == 1 && cache.items[Yahoo].value.priority == 2
    modifies cache, cache.pq, cache.pq.Repr
    ensures cache.Valid() && NyTimes in cache.items && Guardian in cache.items && Yahoo !in cache.items
    ensures cache.items[NyTimes] == old(cache.items[NyTimes]) && cache.items[Guardian].expiry == Day + 2
  {
    var yahoo := cache.items[Yahoo];
    ghost var e0 := |cache.Evicted|;
    cache.SetWithTTL(Guardian, CacheValue(3.5, 1), Day, 2);
    ghost var victims := cache.Evicted[e0..];
    assert |victims| == 1;
    ghost var v := victims[0];
    assert v in victims;
    if Yahoo !in cache.items {
      assert v == yahoo;
    }
    assert v.key == Yahoo;
  }

  /**
   * Priority eviction at capacity 2: after a request with a priority-1 and a
   * priority-2 row, a third (priority-1) entry evicts the priority-2 one.
   */
  method PriorityEvictionScenario() returns (nyFound: bool, yahooFound: bool, guardianFound: bool)
    ensures nyFound && !yahooFound && guardianFound
  {
    var server := FillToCapacity();
    var cache := server.cache;
    GuardianWrite(cache);
    var value: CacheValue;
    value, nyFound := cache.Get(NyTimes, 3);
    value, yahooFound := cache.Get(Yahoo, 3);
    value, guardianFound := cache.Get(Guardian, 3);
  }
}
