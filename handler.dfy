/**
 * The batch endpoint: split the request rows into cache hits and a miss map
 * keyed by inventory id, fetch the misses at most once, and write the fetched
 * rows back into the cache.
 */
module Handler {
  import opened CacheTypes
  import opened Caches

  /** One request row. */
  datatype Inventory = Inventory(inventoryId: string, utcDatetime: string, priority: uint8)

  /** One response row. */
  datatype EmissionData = EmissionData(inventoryId: string, emissions: Emissions)

  /** What the downstream emissions service answers for one batch of misses. */
  datatype FetchResult = FetchFailed | Fetched(rows: seq<EmissionData>)

  /** The handler's reply: status 200 with rows, or status 500. */
  datatype Response = Ok(rows: seq<EmissionData>) | ServerError

  /** The cache key of a request row. */
  function KeyOf(row: Inventory): (key: CacheKey)
  {
    CacheKey(row.inventoryId, row.utcDatetime)
  }

  /** The row is a cache hit at `now` in the key map `items`. */
  predicate Hit(row: Inventory, items: map<CacheKey, CacheItem>, now: int)
  {
    KeyOf(row) in items && Live(items[KeyOf(row)], now)
  }

  /** The response row a hit produces: the row's id and the cached figure. */
  function Served(row: Inventory, items: map<CacheKey, CacheItem>): (d: EmissionData)
    requires KeyOf(row) in items
  {
    EmissionData(row.inventoryId, items[KeyOf(row)].value.emissions)
  }

  /** The cache write a fetched row causes, given the miss row of its id. */
  function WriteBack(d: EmissionData, miss: Inventory, ttl: int, now: int): (w: Write)
  {
    Write(CacheKey(d.inventoryId, miss.utcDatetime), CacheValue(d.emissions, miss.priority), ttl, now)
  }

  /** The response rows served from the cache, in request order. */
  function HitRows(rows: seq<Inventory>, items: map<CacheKey, CacheItem>, now: int): (r: seq<EmissionData>)
    ensures |r| <= |rows|
    ensures forall d :: d in r ==> exists row :: row in rows && Hit(row, items, now) && d == Served(row, items)
  {
    if rows == [] then []
    else
      var row := rows[|rows| - 1];
      var front := rows[..|rows| - 1];
      assert rows == front + [row];
      HitRows(front, items, now) + (if Hit(row, items, now) then [Served(row, items)] else [])
  }

  /** The misses, keyed by inventory id alone; a later miss replaces an earlier one with the same id. */
  function MissMap(rows: seq<Inventory>, items: map<CacheKey, CacheItem>, now: int): (r: map<string, Inventory>)
    ensures forall id :: id in r ==> r[id] in rows && !Hit(r[id], items, now) && r[id].inventoryId == id
    ensures forall row :: row in rows && !Hit(row, items, now) ==> row.inventoryId in r
  {
    if rows == [] then map[]
    else
      var row := rows[|rows| - 1];
      var front := rows[..|rows| - 1];
      assert rows == front + [row];
      var m := MissMap(front, items, now);
      if Hit(row, items, now) then m else m[row.inventoryId := row]
  }

  /** The cache writes for the fetched rows, in response order: one per row whose id was missed. */
  function WriteBacks(data: seq<EmissionData>, misses: map<string, Inventory>, ttl: int, now: int): (r: seq<Write>)
    ensures |r| <= |data|
    ensures forall w :: w in r ==>
              exists d :: d in data && d.inventoryId in misses && w == WriteBack(d, misses[d.inventoryId], ttl, now)
  {
    if data == [] then []
    else
      var d := data[|data| - 1];
      var front := data[..|data| - 1];
      assert data == front + [d];
      WriteBacks(front, misses, ttl, now)
        + (if d.inventoryId in misses then [WriteBack(d, misses[d.inventoryId], ttl, now)] else [])
  }

  datatype Option<T> = None | Some(value: T)

  /** The last write to `key` in `ws`, if any. */
  function LastWrite(ws: seq<Write>, key: CacheKey): (r: Option<Write>)
    ensures r.Some? ==> r.value in ws && r.value.key == key
    ensures r.None? <==> forall w :: w in ws ==> w.key != key
  {
    if ws == [] then None
    else
      var front := ws[..|ws| - 1];
      assert ws == front + [ws[|ws| - 1]];
      if ws[|ws| - 1].key == key then Some(ws[|ws| - 1]) else LastWrite(front, key)
  }

  /** `item` is the entry that the write `w` creates. */
  predicate Holds(item: CacheItem, w: Write)
  {
    item.key == w.key && item.value == w.value && item.expiry == w.now + w.ttl && item.timestamp == w.now
  }

  /**
   * `items` is `before` after the writes `ws` with nothing evicted: every written
   * key holds the entry of its last write, every other key keeps its entry, and
   * no other key appears.
   */
  ghost predicate Applied(before: map<CacheKey, CacheItem>, ws: seq<Write>, items: map<CacheKey, CacheItem>)
  {
    && (forall k :: LastWrite(ws, k).Some? ==> k in items && Holds(items[k], LastWrite(ws, k).value))
    && (forall k :: k in before && LastWrite(ws, k).None? ==> k in items && items[k] == before[k])
    && (forall k :: k in items ==> k in before || LastWrite(ws, k).Some?)
  }

  /** One more write that evicts nothing extends `Applied` by that write. */
  lemma AppliedStep(before: map<CacheKey, CacheItem>, ws: seq<Write>, items: map<CacheKey, CacheItem>,
                    w: Write, items': map<CacheKey, CacheItem>)
    requires Applied(before, ws, items)
    requires w.key in items' && Holds(items'[w.key], w)
    requires forall k :: k in items && k != w.key ==> k in items' && items'[k] == items[k]
    requires forall k :: k in items' ==> k in items || k == w.key
    ensures Applied(before, ws + [w], items')
  {
  }

  /**
   * A batch's write-backs reach every answered miss: for each fetched row whose
   * id was missed, the miss row's key (its id and date) is written.
   */
  lemma AnsweredMissesWritten(data: seq<EmissionData>, misses: map<string, Inventory>, ttl: int, now: int)
    ensures forall d :: d in data && d.inventoryId in misses ==>
              LastWrite(WriteBacks(data, misses, ttl, now), CacheKey(d.inventoryId, misses[d.inventoryId].utcDatetime)).Some?
  {
  }

  /**
   * When a batch's write-backs evict nothing, every answered miss is stored
   * under its miss row's key, with that row's priority and the deadline and
   * timestamp of this request; and when the fetched rows have distinct ids,
   * with the figure fetched for it. No key other than these is added.
   */
  lemma {:induction false} AnsweredMissesStored(before: map<CacheKey, CacheItem>, data: seq<EmissionData>,
                                                misses: map<string, Inventory>, ttl: int, now: int,
                                                items: map<CacheKey, CacheItem>)
    requires Applied(before, WriteBacks(data, misses, ttl, now), items)
    ensures forall d :: d in data && d.inventoryId in misses ==>
              var k := CacheKey(d.inventoryId, misses[d.inventoryId].utcDatetime);
              k in items && items[k].expiry == now + ttl && items[k].timestamp == now
              && items[k].value.priority == misses[d.inventoryId].priority
    ensures (forall i, j :: 0 <= i < j < |data| ==> data[i].inventoryId != data[j].inventoryId) ==>
              forall d :: d in data && d.inventoryId in misses ==>
                var k := CacheKey(d.inventoryId, misses[d.inventoryId].utcDatetime);
                k in items && items[k].value.emissions == d.emissions
    ensures forall k :: k in items ==>
              k in before
              || exists d :: d in data && d.inventoryId in misses && k == CacheKey(d.inventoryId, misses[d.inventoryId].utcDatetime)
  {
    var ws := WriteBacks(data, misses, ttl, now);
    AnsweredMissesWritten(data, misses, ttl, now);
    forall k | k in items && k !in before
      ensures exists d :: d in data && d.inventoryId in misses && k == CacheKey(d.inventoryId, misses[d.inventoryId].utcDatetime)
    {
      assert LastWrite(ws, k).value in ws;
    }
    forall d | d in data && d.inventoryId in misses
      ensures var k := CacheKey(d.inventoryId, misses[d.inventoryId].utcDatetime);
              k in items && items[k].expiry == now + ttl && items[k].timestamp == now
              && items[k].value.priority == misses[d.inventoryId].priority
              && ((forall i, j :: 0 <= i < j < |data| ==> data[i].inventoryId != data[j].inventoryId) ==>
                    items[k].value.emissions == d.emissions)
    {
      var k := CacheKey(d.inventoryId, misses[d.inventoryId].utcDatetime);
      var w := LastWrite(ws, k).value;
      assert w in ws;
      var d' :| d' in data && d'.inventoryId in misses && w == WriteBack(d', misses[d'.inventoryId], ttl, now);
      assert d'.inventoryId == d.inventoryId;
      if forall i, j :: 0 <= i < j < |data| ==> data[i].inventoryId != data[j].inventoryId {
        var i :| 0 <= i < |data| && data[i] == d;
        var i' :| 0 <= i' < |data| && data[i'] == d';
        assert i == i';
      }
    }
  }

  /** The write-backs of one more fetched row extend those of the rows before it. */
  lemma WriteBacksSnoc(data: seq<EmissionData>, j: int, misses: map<string, Inventory>, ttl: int, now: int, log: seq<Write>)
    requires 0 <= j < |data|
    ensures WriteBacks(data[..j + 1], misses, ttl, now)
            == WriteBacks(data[..j], misses, ttl, now)
               + (if data[j].inventoryId in misses then [WriteBack(data[j], misses[data[j].inventoryId], ttl, now)] else [])
    ensures log + WriteBacks(data[..j + 1], misses, ttl, now)
            == (log + WriteBacks(data[..j], misses, ttl, now))
               + (if data[j].inventoryId in misses then [WriteBack(data[j], misses[data[j].inventoryId], ttl, now)] else [])
  {
    assert data[..j + 1][..j] == data[..j];
  }

  /** Every hit of the request is served. */
  lemma {:induction false} HitRowsComplete(rows: seq<Inventory>, items: map<CacheKey, CacheItem>, now: int)
    ensures forall row :: row in rows && Hit(row, items, now) ==> Served(row, items) in HitRows(rows, items, now)
    decreases |rows|
  {
    if rows != [] {
      var front := rows[..|rows| - 1];
      assert rows == front + [rows[|rows| - 1]];
      HitRowsComplete(front, items, now);
    }
  }

  /** Every fetched row whose id was missed is written back, with the miss row's date and priority. */
  lemma {:induction false} WriteBacksComplete(data: seq<EmissionData>, misses: map<string, Inventory>, ttl: int, now: int)
    ensures forall d :: d in data && d.inventoryId in misses ==>
              WriteBack(d, misses[d.inventoryId], ttl, now) in WriteBacks(data, misses, ttl, now)
    decreases |data|
  {
    if data != [] {
      var front := data[..|data| - 1];
      assert data == front + [data[|data| - 1]];
      WriteBacksComplete(front, misses, ttl, now);
    }
  }

  /** Hits keep request order: the hits of a concatenation are the hits of each part, in turn. */
  lemma {:induction false} HitRowsConcat(a: seq<Inventory>, b: seq<Inventory>, items: map<CacheKey, CacheItem>, now: int)
    ensures HitRows(a + b, items, now) == HitRows(a, items, now) + HitRows(b, items, now)
    decreases |b|
  {
    if b == [] {
      assert a + b == a;
    } else {
      var front := b[..|b| - 1];
      assert a + b == (a + front) + [b[|b| - 1]];
      assert b == front + [b[|b| - 1]];
      HitRowsConcat(a, front, items, now);
    }
  }

  /** The miss map holds, for each missed id, the last missed row with that id. */
  lemma {:induction false} MissMapKeepsLast(rows: seq<Inventory>, items: map<CacheKey, CacheItem>, now: int, i: int)
    requires 0 <= i < |rows| && !Hit(rows[i], items, now)
    requires forall j :: i < j < |rows| && rows[j].inventoryId == rows[i].inventoryId ==> Hit(rows[j], items, now)
    ensures rows[i].inventoryId in MissMap(rows, items, now)
    ensures MissMap(rows, items, now)[rows[i].inventoryId] == rows[i]
    decreases |rows|
  {
    var front := rows[..|rows| - 1];
    assert rows == front + [rows[|rows| - 1]];
    if i < |rows| - 1 {
      MissMapKeepsLast(front, items, now, i);
    }
  }

  /**
   * Coalescing by id drops dates: when two missed rows share an id but not a
   * date, and the later one is the last miss of that id, no write-back of the
   * batch stores the earlier row's key.
   */
  lemma ShadowedMissNotWritten(rows: seq<Inventory>, items: map<CacheKey, CacheItem>, now: int, i: int, j: int,
                               data: seq<EmissionData>, ttl: int)
    requires 0 <= i < j < |rows|
    requires !Hit(rows[i], items, now) && !Hit(rows[j], items, now)
    requires rows[i].inventoryId == rows[j].inventoryId && rows[i].utcDatetime != rows[j].utcDatetime
    requires forall k :: j < k < |rows| && rows[k].inventoryId == rows[j].inventoryId ==> Hit(rows[k], items, now)
    ensures forall w :: w in WriteBacks(data, MissMap(rows, items, now), ttl, now) ==> w.key != KeyOf(rows[i])
  {
    MissMapKeepsLast(rows, items, now, j);
  }

  /** A request whose every row is a hit needs no fetch and is answered entirely from the cache. */
  lemma {:induction false} AllHitsNoMisses(rows: seq<Inventory>, items: map<CacheKey, CacheItem>, now: int)
    requires forall row :: row in rows ==> Hit(row, items, now)
    ensures MissMap(rows, items, now) == map[]
    ensures |HitRows(rows, items, now)| == |rows|
    decreases |rows|
  {
    if rows != [] {
      var front := rows[..|rows| - 1];
      assert rows == front + [rows[|rows| - 1]];
      AllHitsNoMisses(front, items, now);
    }
  }

  /**
   * A write into a store with room to spare evicts nothing: the written key
   * is stored, and every key stored before is still stored.
   */
  lemma NothingEvicted(before: map<CacheKey, CacheItem>, after: map<CacheKey, CacheItem>,
                       log: seq<CacheItem>, log': seq<CacheItem>, key: CacheKey, size: int, maxSize: int)
    requires |before| < maxSize && size == |after|
    requires |log| <= |log'| && log'[..|log|] == log
    requires var n := |before| + (if key in before then 0 else 1);
             |after| + |log'| - |log| == n && size == if n <= maxSize then n else maxSize
    requires forall k :: k in before && k != key && k !in after ==> before[k] in log'[|log|..]
    requires key in after || |log| < |log'|
    ensures log' == log
    ensures key in after
    ensures forall k :: k in before ==> k in after
  {
  }

  /** The server: the cache and the fixed time-to-live of write-backs. */
  class Server {
    const cache: Cache
    const cacheExpiration: int

    /** The state part of `CreateServer`: an empty cache of the given capacity. */
    constructor (cacheMaxCost: int, cacheExpiration: int)
      requires cacheMaxCost >= 0
      ensures this.cacheExpiration == cacheExpiration
      ensures fresh(cache) && fresh(cache.pq) && cache.pq.Repr == {}
      ensures cache.Valid() && cache.maxSize == cacheMaxCost && cache.items == map[]
      ensures cache.Evicted == [] && cache.Writes == []
    {
      this.cacheExpiration := cacheExpiration;
      cache := new Cache(cacheMaxCost);
    }

    /**
     * The handler, after request binding. `fetch` stands for the downstream
     * call; `fetched` lists the miss maps it was called with.
     */
    method EmissionHandler(rows: seq<Inventory>, now: int, fetch: map<string, Inventory> -> FetchResult)
      returns (resp: Response, fetched: seq<map<string, Inventory>>)
      requires cache.Valid()
      modifies cache, cache.pq, cache.pq.Repr
      ensures cache.Valid()
      ensures old(cache.pq.Repr) <= cache.pq.Repr && fresh(cache.pq.Repr - old(cache.pq.Repr))
      ensures var misses := MissMap(rows, old(cache.items), now);
              fetched == if |misses| > 0 then [misses] else []
      // no misses: the hits are the response and the cache is unchanged
      ensures var misses := MissMap(rows, old(cache.items), now);
              |misses| == 0 ==>
                resp == Ok(HitRows(rows, old(cache.items), now))
                && cache.items == old(cache.items) && cache.Writes == old(cache.Writes) && cache.Evicted == old(cache.Evicted)
                && cache.pq.slots == old(cache.pq.slots)
      // a failed fetch: status 500 and the cache is unchanged
      ensures var misses := MissMap(rows, old(cache.items), now);
              |misses| > 0 && fetch(misses).FetchFailed? ==>
                resp == ServerError
                && cache.items == old(cache.items) && cache.Writes == old(cache.Writes) && cache.Evicted == old(cache.Evicted)
                && cache.pq.slots == old(cache.pq.slots)
      // a successful fetch: hits then fetched rows, and one write-back per fetched row whose id was missed
      ensures var misses := MissMap(rows, old(cache.items), now);
              |misses| > 0 && fetch(misses).Fetched? ==>
                resp == Ok(HitRows(rows, old(cache.items), now) + fetch(misses).rows)
                && cache.Writes == old(cache.Writes) + WriteBacks(fetch(misses).rows, misses, cacheExpiration, now)
      // when the fetched rows fit in the free capacity, nothing is evicted
      ensures var misses := MissMap(rows, old(cache.items), now);
              |misses| > 0 && fetch(misses).Fetched? && |old(cache.items)| + |fetch(misses).rows| <= cache.maxSize ==>
                Applied(old(cache.items), WriteBacks(fetch(misses).rows, misses, cacheExpiration, now), cache.items)
    {
      var result, cacheMisses := SplitHits(rows, now);
      fetched := [];
      if |cacheMisses| > 0 {
        fetched := [cacheMisses];
        var res := fetch(cacheMisses);
        if res.FetchFailed? {
          return ServerError, fetched;
        }
        var resBody := res.rows;
        result := result + resBody;
        StoreFetched(resBody, cacheMisses, now);
      }
      resp := Ok(result);
    }

    /**
     * The first loop of the handler: each row is looked up; a hit is appended
     * to the response, a miss is stored under its inventory id.
     */
    method SplitHits(rows: seq<Inventory>, now: int) returns (result: seq<EmissionData>, cacheMisses: map<string, Inventory>)
      ensures result == HitRows(rows, cache.items, now)
      ensures cacheMisses == MissMap(rows, cache.items, now)
    {
      result := [];
      cacheMisses := map[];
      var i := 0;
      while i < |rows|
        invariant 0 <= i <= |rows|
        invariant result == HitRows(rows[..i], cache.items, now)
        invariant cacheMisses == MissMap(rows[..i], cache.items, now)
      {
        var row := rows[i];
        var key := KeyOf(row);
        var value, found := cache.Get(key, now);
        if found {
          result := result + [EmissionData(key.inventoryId, value.emissions)];
        } else {
          cacheMisses := cacheMisses[key.inventoryId := row];
        }
        assert rows[..i + 1] == rows[..i] + [row];
        i := i + 1;
      }
      assert rows[..i] == rows;
    }

    /**
     * The write-back loop of the handler: each fetched row whose id was
     * missed is cached under that miss row's date, with its priority and the
     * configured time-to-live.
     */
    method StoreFetched(resBody: seq<EmissionData>, cacheMisses: map<string, Inventory>, now: int)
      requires cache.Valid()
      modifies cache, cache.pq, cache.pq.Repr
      ensures cache.Valid()
      ensures old(cache.pq.Repr) <= cache.pq.Repr && fresh(cache.pq.Repr - old(cache.pq.Repr))
      ensures cache.Writes == old(cache.Writes) + WriteBacks(resBody, cacheMisses, cacheExpiration, now)
      ensures |old(cache.items)| + |resBody| <= cache.maxSize ==>
                Applied(old(cache.items), WriteBacks(resBody, cacheMisses, cacheExpiration, now), cache.items)
    {
      var j := 0;
      while j < |resBody|
        invariant 0 <= j <= |resBody|
        invariant cache.Valid()
        invariant old(cache.pq.Repr) <= cache.pq.Repr && fresh(cache.pq.Repr - old(cache.pq.Repr))
        invariant cache.Writes == old(cache.Writes) + WriteBacks(resBody[..j], cacheMisses, cacheExpiration, now)
        invariant |cache.items| <= |old(cache.items)| + j
        invariant |old(cache.items)| + |resBody| <= cache.maxSize ==>
                    Applied(old(cache.items), WriteBacks(resBody[..j], cacheMisses, cacheExpiration, now), cache.items)
      {
        StoreNext(resBody, j, cacheMisses, now, old(cache.items), old(cache.Writes));
        j := j + 1;
      }
      assert resBody[..j] == resBody;
    }

    /**
     * One round of the write-back loop: the row at `j` is written back if its
     * id was missed. `items0` and `writes0` are the key map and the write log
     * before the loop.
     */
    method StoreNext(resBody: seq<EmissionData>, j: int, cacheMisses: map<string, Inventory>, now: int,
                     ghost items0: map<CacheKey, CacheItem>, ghost writes0: seq<Write>)
      requires 0 <= j < |resBody|
      requires cache.Valid()
      requires cache.Writes == writes0 + WriteBacks(resBody[..j], cacheMisses, cacheExpiration, now)
      requires |cache.items| <= |items0| + j
      requires |items0| + |resBody| <= cache.maxSize ==>
                 Applied(items0, WriteBacks(resBody[..j], cacheMisses, cacheExpiration, now), cache.items)
      modifies cache, cache.pq, cache.pq.Repr
      ensures cache.Valid()
      ensures old(cache.pq.Repr) <= cache.pq.Repr && fresh(cache.pq.Repr - old(cache.pq.Repr))
      ensures cache.Writes == writes0 + WriteBacks(resBody[..j + 1], cacheMisses, cacheExpiration, now)
      ensures |cache.items| <= |items0| + j + 1
      ensures |items0| + |resBody| <= cache.maxSize ==>
                Applied(items0, WriteBacks(resBody[..j + 1], cacheMisses, cacheExpiration, now), cache.items)
    {
      var data := resBody[j];
      WriteBacksSnoc(resBody, j, cacheMisses, cacheExpiration, now, writes0);
      if data.inventoryId in cacheMisses {
        var miss := cacheMisses[data.inventoryId];
        StoreRow(data, miss, now);
        if |items0| + |resBody| <= cache.maxSize {
          var w := WriteBack(data, miss, cacheExpiration, now);
          NothingEvicted(old(cache.items), cache.items, old(cache.Evicted), cache.Evicted, w.key, cache.currSize, cache.maxSize);
          AppliedStep(items0, WriteBacks(resBody[..j], cacheMisses, cacheExpiration, now), old(cache.items), w, cache.items);
          assert WriteBacks(resBody[..j + 1], cacheMisses, cacheExpiration, now)
              == WriteBacks(resBody[..j], cacheMisses, cacheExpiration, now) + [w];
          assert Applied(items0, WriteBacks(resBody[..j + 1], cacheMisses, cacheExpiration, now), cache.items);
        }
      } else {
        assert WriteBacks(resBody[..j + 1], cacheMisses, cacheExpiration, now)
            == WriteBacks(resBody[..j], cacheMisses, cacheExpiration, now);
      }
    }

    /** One write-back: the fetched row's figure, under the miss row's date, with its priority. */
    method StoreRow(data: EmissionData, miss: Inventory, now: int)
      requires cache.Valid()
      modifies cache, cache.pq, cache.pq.Repr
      ensures cache.Valid()
      ensures old(cache.pq.Repr) <= cache.pq.Repr && fresh(cache.pq.Repr - old(cache.pq.Repr))
      ensures cache.Writes == old(cache.Writes) + [WriteBack(data, miss, cacheExpiration, now)]
      ensures |old(cache.Evicted)| <= |cache.Evicted| && cache.Evicted[..|old(cache.Evicted)|] == old(cache.Evicted)
      // the written key, unless its new entry was itself a victim, holds the fresh entry of this write
      ensures var w := WriteBack(data, miss, cacheExpiration, now);
              w.key in cache.items ==> fresh(cache.items[w.key]) && Holds(cache.items[w.key], w)
      // every other key keeps the entry it had
      ensures var w := WriteBack(data, miss, cacheExpiration, now);
              forall k :: k in cache.items && k != w.key ==> k in old(cache.items) && cache.items[k] == old(cache.items)[k]
      // each victim is an entry the key map held before, or the new entry
      ensures var w := WriteBack(data, miss, cacheExpiration, now);
              forall v :: v in cache.Evicted[|old(cache.Evicted)|..] ==>
                v.key !in cache.items
                && ((v.key != w.key && v.key in old(cache.items) && v == old(cache.items)[v.key]) || Holds(v, w))
      // nothing but the victims leaves the map
      ensures var w := WriteBack(data, miss, cacheExpiration, now);
              forall k :: k in old(cache.items) && k != w.key && k !in cache.items ==> old(cache.items)[k] in cache.Evicted[|old(cache.Evicted)|..]
      ensures var w := WriteBack(data, miss, cacheExpiration, now);
              w.key !in cache.items ==> exists v :: v in cache.Evicted[|old(cache.Evicted)|..] && v.key == w.key
      // entries and victims add up, and the store keeps as many entries as fit
      ensures var w := WriteBack(data, miss, cacheExpiration, now);
              var n := |old(cache.items)| + (if w.key in old(cache.items) then 0 else 1);
              && |cache.items| + |cache.Evicted| - |old(cache.Evicted)| == n
              && cache.currSize == if n <= cache.maxSize then n else cache.maxSize
    {
      var key := CacheKey(data.inventoryId, miss.utcDatetime);
      cache.SetWithTTL(key, CacheValue(data.emissions, miss.priority), cacheExpiration, now);
      assert key in cache.items ==> cache.items[key].key == key;
    }
  }
}
