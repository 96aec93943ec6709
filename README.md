# Emission cache of `cmd/measure` in Dafny

The `measure` service answers batches of (inventory id, UTC date, priority) rows
with a carbon-emissions figure for each row. It fronts a slow downstream API
with a bounded in-memory cache, and this project models that cache engine and
the handler logic around it:

- **Eviction ordering** (`CacheTypes`, `PriorityQueues`). `CacheItem` is an
  entry shared by the key map and the eviction heap. `PriorityQueue` is the
  slice of entries with Go's `Len`, `Less`, `Swap`, `Push` and `Pop`, and every
  entry records its slot in `index`. `EvictsBefore` is an independent reference
  definition of `Less`: it compares the rank (negated priority, creation time)
  lexicographically.
- **`container/heap`** (`ContainerHeap`). Go's standard-library heap
  algorithms drive the queue: `up`, `down`, `heap.Push`, `heap.Pop` and
  `heap.Remove`.
  - Each sift loop is a method proved equal to a ghost function (`SiftUp`,
    `SiftDown`, `Settled`).
  - Lemmas prove that these functions keep heap order and only permute the
    slots. From those lemmas, `Pop` returns an entry that no remaining entry
    is strictly `Less` than, and `Remove(i)` removes exactly slot `i`.
- **The cache** (`Caches`). `Cache` holds the key map, capacity, size counter
  and heap.
  - `Get` is the lazy-expiry read.
  - `SetWithTTL` is the upsert followed by the capacity-eviction loop.
  - `ExpireIfDue` is the body of the expiry goroutine.
  - Its invariant is `currSize == |items| == |pq|`, with map and heap holding
    the same entries, one per key, in heap order. `SetWithTTL` also keeps
    `currSize <= maxSize`.
- **The batch handler** (`Handler`). The handler looks each row up, appending
  hits in request order and collecting misses in a map keyed by inventory id
  alone. It fetches the misses at most once. On failure it answers 500. On
  success it answers the hits followed by the fetched rows, and writes back
  each fetched row whose id was missed.
- **Scenarios** (`Scenarios`). The repository's three handler tests, restated
  with concrete clock values and proved.
  - Every request that meets an empty cache goes through `EmissionHandler`,
    with a `fetch` that answers one figure per publisher. The cached state it
    leaves is derived from the handler's contract.
  - The second request of the priority test is issued as the single
    `SetWithTTL` call it causes, because the handler's contract describes the
    key map only when nothing is evicted.

Clock readings are integers (`now`, in nanoseconds in the scenarios) passed to
every operation. The downstream call is a function parameter `fetch`. The
`onEvict` callback only logs, so it is recorded as the ghost log
`Cache.Evicted`. Every `SetWithTTL` call is recorded in the ghost log
`Cache.Writes`, which is how the handler's write-backs are stated.

Where the service's design description and the code differ, the model follows
the code:

- **Expiry guard.** `ExpireIfDue` removes whatever entry is stored under the
  key when that entry's deadline has passed. It does not check that this is
  the entry whose write started the timer.
- **Read boundary.** `Get` misses only when the deadline is strictly before
  `now`, so an entry is still served at `now == expiry`.
- **Upsert of an existing key.** The map entry is overwritten, not deleted
  first. The effect is the same.
- **Expiry deadlines.** Nothing forces a deadline to be later than the
  creation time: `ttl` may be any integer.
- **Eviction direction.** The entry with the numerically highest priority
  value is evicted first, the older one on ties.

## Model

| member | source | states |
|---|---|---|
| CacheTypes.CacheItem.constructor | cmd/measure/main.go:110-115 | a new entry carries the given key, value, deadline and creation time |
| CacheTypes.EvictionOrderIsStrictWeak | cmd/measure/main.go:53-58 | the eviction order is irreflexive, asymmetric and transitive; incomparability is transitive; two entries tie exactly when priority and creation time agree |
| PriorityQueues.PriorityQueue.constructor | cmd/measure/main.go:188 | the queue starts empty, with its slot bookkeeping valid |
| PriorityQueues.PriorityQueue.Less | cmd/measure/main.go:53-58 | `Less(i, j)` holds exactly when slot `i` ranks strictly before slot `j` in the reference order: higher priority value first, then the older entry |
| PriorityQueues.PriorityQueue.Swap | cmd/measure/main.go:61-65 | the two slots are exchanged, both entries' `index` equals their new slot, and every other slot keeps its entry and index |
| PriorityQueues.PriorityQueue.Push | cmd/measure/main.go:68-73 | the entry is appended and its `index` becomes the old length |
| PriorityQueues.PriorityQueue.Pop | cmd/measure/main.go:76-84 | the last slot is removed and returned; its `index` becomes -1; the rest keep their slots |
| ContainerHeap.RootFirst | cmd/measure/main.go:135 | in a heap, no entry ranks strictly before the root |
| ContainerHeap.PoppedIsGone | cmd/measure/main.go:81 | an entry whose `index` is -1 occupies no slot of a valid queue |
| ContainerHeap.SlotOf | cmd/measure/main.go:106 | an entry held by a valid queue sits in the slot its `index` names, so `heap.Remove(&c.pq, item.index)` targets that entry |
| ContainerHeap.SiftDownPermutes | cmd/measure/main.go:135 | `down` only permutes the slots below its bound and leaves the rest unchanged |
| ContainerHeap.SiftDownOrders | cmd/measure/main.go:135 | `down` restores heap order when only the entry it starts from is out of place below; if it does not move, only the pair above that entry may still be out of order |
| ContainerHeap.SiftUpPermutes | cmd/measure/main.go:117 | `up` only permutes the slots up to its start and leaves the rest unchanged |
| ContainerHeap.SiftUpOrders | cmd/measure/main.go:117 | `up` restores heap order when only the pair above its start may be out of order |
| ContainerHeap.PushSiftedSpec | cmd/measure/main.go:117 | append-then-`up` on a heap yields a heap holding exactly the old entries plus the new one |
| ContainerHeap.PopSiftedSpec | cmd/measure/main.go:135 | swap-root-with-last-then-`down` leaves the old root in the last slot and a heap of exactly the other entries before it |
| ContainerHeap.SettledSpec | cmd/measure/main.go:106 | `down`, then `up` if `down` did not move, restores heap order around one displaced slot and only permutes |
| ContainerHeap.RemoveSiftedSpec | cmd/measure/main.go:106 | swap-slot-with-last-then-settle leaves the removed entry in the last slot and a heap of exactly the other entries before it |
| ContainerHeap.Up | cmd/measure/main.go:117 | the sift-up loop leaves exactly the slice `SiftUp` describes, with slot bookkeeping kept |
| ContainerHeap.Down | cmd/measure/main.go:135 | the sift-down loop leaves exactly the slice `SiftDown` describes, and reports a move exactly when the first comparison swaps |
| ContainerHeap.Settle | cmd/measure/main.go:106 | the tail of `heap.Remove` leaves exactly the slice `Settled` describes |
| ContainerHeap.Push | cmd/measure/main.go:117 | `heap.Push` keeps heap order and slot bookkeeping, and adds exactly the new entry |
| ContainerHeap.Pop | cmd/measure/main.go:135 | `heap.Pop` returns the old root with `index` -1, keeps heap order, removes exactly that entry, and no remaining entry ranks strictly before it |
| ContainerHeap.Remove | cmd/measure/main.go:106 | `heap.Remove(i)` returns the entry of slot `i` with `index` -1, keeps heap order, and removes exactly that entry |
| Caches.AgreeAfterEviction | cmd/measure/main.go:135-137 | popping an entry and deleting its key keeps map and heap in agreement and shrinks the map by one |
| Caches.AgreeAfterUpsert | cmd/measure/main.go:104-117 | replacing a key's heap entry by a fresh one stored under the key keeps map and heap in agreement |
| Caches.EvictionStep | cmd/measure/main.go:134-141 | one round of the capacity loop extends the in-order victim record: survivors keep their entries, the victim ranks no later than any survivor or any later victim |
| Caches.SetOutcome | cmd/measure/main.go:100-141 | after upsert and eviction, other keys keep their entries, every victim is an old entry or the new one, nothing but victims leaves, and entries plus victims count the old entries plus the new key |
| Caches.OneSlotPerKey | cmd/measure/main.go:104-118 | in a consistent cache no key occupies two heap slots |
| Caches.Cache.constructor | cmd/measure/main.go:185-188 | a new cache is empty, consistent and within its capacity |
| Caches.Cache.Get | cmd/measure/main.go:87-97 | a hit exactly when the key is stored and its deadline is not before `now`, returning the stored value; otherwise the zero value; nothing changes |
| Caches.Cache.SetWithTTL | cmd/measure/main.go:100-141 | the store stays consistent and within capacity, and keeps as many entries as fit; the key maps to a fresh entry with the new value, deadline `now + ttl` and time `now`, unless that entry was itself a victim; every other key keeps its entry; victims are old entries or the new one, leave the map, are reported in eviction order, and no survivor ranks before them; nothing else leaves |
| Caches.Cache.Upsert | cmd/measure/main.go:104-118 | the key's old entry leaves the heap, and a fresh entry with the new value, deadline and time is stored under the key and pushed; map, heap and counter stay consistent |
| Caches.Cache.Unlink | cmd/measure/main.go:104-107 | the key's old entry leaves the heap, which keeps heap order, and the counter drops by one; the key map is untouched until the new entry overwrites it |
| Caches.Cache.EvictOverflow | cmd/measure/main.go:134-141 | the loop evicts until the size is within capacity; exactly the missing keys are victims, taken in eviction order and never ranked after a survivor |
| Caches.Cache.EvictRoot | cmd/measure/main.go:135-140 | one round: the heap root leaves map and heap, the counter drops by one, the victim is reported, and no remaining entry ranks strictly before it |
| Caches.Cache.EvictNext | cmd/measure/main.go:134-141 | one round of the capacity loop extends the loop's in-order victim record by the popped entry and lowers the counter |
| Caches.Cache.ExpireIfDue | cmd/measure/main.go:124-131 | if the entry currently stored under the key has a deadline before `now`, it leaves map and heap and is reported; otherwise nothing changes |
| Handler.HitRows | cmd/measure/main.go:331-340 | every served row comes from a hit row of the request and carries its cached figure |
| Handler.MissMap | cmd/measure/main.go:331-340 | the miss map holds only missed rows under their own id, and every missed row's id is in it |
| Handler.WriteBacks | cmd/measure/main.go:354-360 | every write-back comes from a fetched row whose id was missed, keyed by that miss row's date, with its priority and the fixed time-to-live |
| Handler.WriteBacksSnoc | cmd/measure/main.go:354-357 | the write-backs of the fetched rows up to one more row are those of the rows before it, followed by that row's write-back if its id was missed |
| Handler.HitRowsComplete | cmd/measure/main.go:333-335 | every hit row of the request is served |
| Handler.HitRowsConcat | cmd/measure/main.go:331-335 | hits are served in request order: the hits of `a + b` are the hits of `a` followed by those of `b` |
| Handler.MissMapKeepsLast | cmd/measure/main.go:338 | for each missed id, the miss map holds the last missed row with that id |
| Handler.ShadowedMissNotWritten | cmd/measure/main.go:338 | an earlier missed row whose id is reused by a later miss with a different date, where that later miss is the last miss of its id, is never written back under its own key |
| Handler.WriteBacksComplete | cmd/measure/main.go:354-357 | every fetched row whose id was missed is written back, with the miss row's date and priority |
| Handler.LastWrite | cmd/measure/main.go:354-357 | the last write to a key, if any, is one of the writes and has that key; there is none exactly when no write has that key |
| Handler.AppliedStep | cmd/measure/main.go:354-357 | a write that stores its entry, keeps every other key and adds no other key extends "the key map is the old map after these writes" by that write |
| Handler.AnsweredMissesWritten | cmd/measure/main.go:354-357 | for every fetched row whose id was missed, some write-back of the batch goes to that miss row's key |
| Handler.AnsweredMissesStored | cmd/measure/main.go:342-360 | when the write-backs evict nothing, each answered miss is stored under its miss row's key with that row's priority, deadline `now + ttl` and time `now`, and with the fetched figure when the fetched ids are distinct; no other key is added |
| Handler.NothingEvicted | cmd/measure/main.go:134-141 | a write into a map below capacity evicts nothing: the key is stored and every old key stays |
| Handler.AllHitsNoMisses | cmd/measure/main.go:342 | a request whose every row hits has an empty miss map and serves every row |
| Handler.Server.constructor | cmd/measure/main.go:180-188 | the server holds an empty, consistent cache of the given capacity and the given time-to-live |
| Handler.Server.EmissionHandler | cmd/measure/main.go:327-361 | the fetch is made once, with the miss map, exactly when the miss map is non-empty; with no misses, the hits are answered and the cache is untouched; a failed fetch answers 500 and leaves the cache untouched; otherwise the hits followed by the fetched rows are answered and exactly the write-backs are performed, in order; when the fetched rows fit in the free capacity, the key map afterwards is the old map with each written key holding the entry of its last write-back |
| Handler.Server.SplitHits | cmd/measure/main.go:331-340 | the lookup loop builds exactly the served hits and the miss map, and changes nothing |
| Handler.Server.StoreFetched | cmd/measure/main.go:354-360 | the write-back loop performs exactly the write-backs of the fetched rows and keeps the cache consistent; when the fetched rows fit in the free capacity, every written key holds the entry of its last write-back and every other key keeps its entry |
| Handler.Server.StoreNext | cmd/measure/main.go:354-360 | one round of the write-back loop extends the performed write-backs by that row's, and keeps the no-eviction account of the key map while the rows fit |
| Handler.Server.StoreRow | cmd/measure/main.go:355-357 | one write-back calls `SetWithTTL` with the miss row's key, the fetched figure, the row's priority and the fixed time-to-live: the key holds a fresh entry with these unless it was itself a victim; every other key keeps its entry; victims are old entries or the new one, and nothing else leaves; entries plus victims count the old entries plus the new key; the store keeps as many entries as fit |
| Scenarios.ColdBatch | cmd/measure/main.go:331-340 | against an empty cache nothing is served and every row's id is in the miss map |
| Scenarios.ColdRequest | cmd/measure/main.go:327-361 | a request against an empty cache answers the fetched rows, fetches once with the miss map of all its rows, and, with room for the answer, evicts nothing |
| Scenarios.PairMisses | cmd/measure/measure_test.go:34-47 | the two-row request misses both rows in an empty cache, each under its own id |
| Scenarios.PairWrites | cmd/measure/main.go:354-357 | the two-row request's write-backs are one per row, in answer order, with the row's date and priority |
| Scenarios.PairStored | cmd/measure/measure_test.go:34-64 | after the first two-row request evicts nothing, exactly its two keys are stored, with the fetched figures, the rows' priorities and the request's deadline |
| Scenarios.SingleStored | cmd/measure/measure_test.go:104-121 | after the first one-row request evicts nothing, its key is stored with the request's deadline |
| Scenarios.PairServed | cmd/measure/measure_test.go:68-78 | with both keys live, the two-row request has no misses and is served from the cache in request order |
| Scenarios.RepeatedRequestScenario | cmd/measure/measure_test.go:23-85 | the first request fetches once and answers the fetched rows; repeating it a second later makes no fetch and answers both rows from the cache, in request order, with the same figures |
| Scenarios.ExpiryScenario | cmd/measure/measure_test.go:93-130 | an entry written back by a request with a ten-second time-to-live misses eleven seconds later, and the expiry step then removes it |
| Scenarios.FillToCapacity | cmd/measure/measure_test.go:144-176 | the first request, a priority-1 and a priority-2 row, fills a cache of capacity 2 with exactly those two keys |
| Scenarios.GuardianWrite | cmd/measure/measure_test.go:178-185 | the second request's write-back, a priority-1 entry into the full cache, evicts the priority-2 entry and keeps the priority-1 one |
| Scenarios.PriorityEvictionScenario | cmd/measure/measure_test.go:133-199 | after both requests, `nytimes.com` and `theguardian.com` hit and `yahoo.com` misses |

## Left out

- HTTP routing, request binding and response writing (cmd/measure/main.go:309-325, 363-379). The handler starts from the bound rows and returns a `Response` value.
- The request-tag validation (cmd/measure/main.go:204-206). Priorities are any `uint8`.
- `getEmissionDataFromInternalAPI` (cmd/measure/main.go:228-306) is JSON encoding, an HTTPS call and decoding. It is the function parameter `fetch`, which answers failure or the fetched rows.
- `CreateServer`'s `.env` loading, API key, logger and HTTP client (cmd/measure/main.go:159-178). Only the cache capacity and the time-to-live are modelled. Its `onEvict` callback only logs, so it is the ghost log `Evicted`.
- The mutex and the goroutine scheduling. `Get`, `SetWithTTL` and the expiry goroutine's body each hold the mutex (cmd/measure/main.go:88, 101, 122) and are modelled as single steps; the expiry body is the method `ExpireIfDue`, which can be called at any time.
- Handler.Server.EmissionHandler: is modelled as one atomic step, but in Go it holds no lock of its own. Cache operations that interleave with it are not captured: other requests and expiry goroutines running between its lookups, during the fetch, or between its write-backs.
- `time.Now`, `time.Duration` and `time.Sleep`.
  - Clock readings are integers passed in.
  - `SetWithTTL` reads the clock twice (deadline, then creation time). The model uses one reading `now` for both.
  - Each handler call uses one `now` for all its lookups and writes.
- `float64` emissions are stored as `real` and never computed with.
- int64 overflow of `now + ttl` and of the counters is not modelled: integers are unbounded.
- Caches.Cache.constructor, Handler.Server.constructor: require a capacity of at least 0. With a negative capacity the Go eviction loop would pop an empty heap.
- PriorityQueues.PriorityQueue.Pop: does not model clearing the popped slot of the backing array (`old[n-1] = nil`). That write is only visible to the garbage collector.
- PriorityQueues.PriorityQueue.Len has no contract of its own; it is the length of `slots`.
- Handler.Server.EmissionHandler: on success, states the key map afterwards only when the fetched rows fit in the free capacity. Otherwise it states the cache's change as the sequence of `SetWithTTL` calls (`Writes`); what each call does to the map is `SetWithTTL`'s contract.
- Handler.Server.StoreRow: does not repeat `SetWithTTL`'s clauses on the order of the victims and on no survivor ranking before them.
- The downstream figures in the scenarios (1.5, 2.5) are placeholders: the tests call the live service.
- The wall-clock timing assertion of the repeated-request test (cmd/measure/measure_test.go:87-89).
- `container/heap` is Go's standard library, not part of the repository. It is modelled from its documented algorithm (`up`, `down`, `Push`, `Pop`, `Remove`); `heap.Fix` and `heap.Init` are not used by the service.
