/**
 * The bounded emission cache: a key map and an eviction heap over the same
 * entries, a size counter, and the capacity-eviction and expiry steps.
 */
module Caches {
  import opened CacheTypes
  import opened PriorityQueues
  import ContainerHeap

  /** The arguments of one `SetWithTTL` call. */
  datatype Write = Write(key: CacheKey, value: CacheValue, ttl: int, now: int)

  /** The key map and the heap hold the same entries, each one under its own key. */
  ghost predicate Agree(items: map<CacheKey, CacheItem>, slots: seq<CacheItem>)
  {
    (forall k :: k in items ==> items[k].key == k && items[k] in slots)
    && (forall y :: y in slots ==> y.key in items && items[y.key] == y)
  }

  /** Popping `x` from the heap and deleting its key keeps map and heap in agreement. */
  lemma AgreeAfterEviction(items: map<CacheKey, CacheItem>, s: seq<CacheItem>, t: seq<CacheItem>, x: CacheItem)
    requires Agree(items, s) && x in s
    requires forall y :: y in t <==> y in s && y != x
    ensures Agree(items - {x.key}, t)
    ensures |items - {x.key}| == |items| - 1
  {
    assert (items - {x.key}).Keys == items.Keys - {x.key};
  }

  /**
   * Replacing the heap entry of `x.key` (if any) by the fresh entry `x` and
   * storing `x` under its key keeps map and heap in agreement.
   */
  lemma AgreeAfterUpsert(items: map<CacheKey, CacheItem>, s: seq<CacheItem>, t: seq<CacheItem>, x: CacheItem)
    requires Agree(items, s) && x !in s
    requires forall y :: y in t <==> (y in s && !(x.key in items && y == items[x.key])) || y == x
    ensures Agree(items[x.key := x], t)
  {
  }

  /**
   * Capacity eviction has so far taken the entries `vs`, in this order, out of
   * `mid` (the map right after the upsert), leaving `items`: survivors keep
   * their entries, every missing key was a victim, and no victim was ranked
   * after a survivor or after a later victim.
   */
  ghost predicate EvictedInOrder(mid: map<CacheKey, CacheItem>, items: map<CacheKey, CacheItem>, vs: seq<CacheItem>)
  {
    (forall k :: k in items ==> k in mid && items[k] == mid[k])
    && (forall v :: v in vs ==> v.key in mid && mid[v.key] == v && v.key !in items)
    && (forall k :: k in mid && k !in items ==> mid[k] in vs)
    && |items| + |vs| == |mid|
    && (forall v, k :: v in vs && k in items ==> !EvictsBefore(items[k], v))
    && (forall a, b :: 0 <= a < b < |vs| ==> !EvictsBefore(vs[b], vs[a]))
  }

  /** One round of the eviction loop: the entry `x` of key `x.key`, ranked no later than any other, joins the victims. */
  lemma EvictionStep(mid: map<CacheKey, CacheItem>, items: map<CacheKey, CacheItem>, vs: seq<CacheItem>,
                     x: CacheItem, items': map<CacheKey, CacheItem>)
    requires EvictedInOrder(mid, items, vs)
    requires x.key in items && items[x.key] == x && items' == items - {x.key}
    requires forall k :: k in items' ==> !EvictsBefore(items'[k], x)
    ensures EvictedInOrder(mid, items', vs + [x])
  {
    var vs' := vs + [x];
    assert items'.Keys == items.Keys - {x.key};
    forall a, b | 0 <= a < b < |vs'|
      ensures !EvictsBefore(vs'[b], vs'[a])
    {
      if b == |vs| {
        assert vs'[a] in vs;
      }
    }
  }

  /** Sequence associativity for one appended element: the log of earlier victims, then this call's victims extended by one. */
  lemma AppendOne(log: seq<CacheItem>, vs: seq<CacheItem>, x: CacheItem)
    ensures (log + vs) + [x] == log + (vs + [x])
  {
  }

  /** What `SetWithTTL` promises, read off the eviction that followed the upsert of `x`. */
  lemma SetOutcome(items0: map<CacheKey, CacheItem>, key: CacheKey, x: CacheItem,
                   mid: map<CacheKey, CacheItem>, items: map<CacheKey, CacheItem>, vs: seq<CacheItem>)
    requires mid == items0[key := x] && x.key == key
    requires forall k :: k in items0 ==> items0[k].key == k
    requires EvictedInOrder(mid, items, vs)
    ensures forall k :: k in items && k != key ==> k in items0 && items[k] == items0[k]
    ensures forall v :: v in vs ==> v.key !in items && (v == x || (v.key != key && v.key in items0 && v == items0[v.key]))
    ensures forall k :: k in items0 && k != key && k !in items ==> items0[k] in vs
    ensures key !in items ==> x in vs
    ensures |items| + |vs| == |items0| + (if key in items0 then 0 else 1)
  {
  }

  /** A consistent cache holds at most one heap slot per key. */
  lemma OneSlotPerKey(c: Cache, a: int, b: int)
    requires c.Consistent()
    requires 0 <= a < |c.pq.slots| && 0 <= b < |c.pq.slots| && a != b
    ensures c.pq.slots[a].key != c.pq.slots[b].key
  {
  }

  /**
   * The cache. `items` and `pq` share entry objects; `currSize` counts them.
   * The `onEvict` callback only logs, so it is recorded as the ghost log
   * `Evicted`; `Writes` logs the arguments of every `SetWithTTL` call.
   */
  class Cache {
    var items: map<CacheKey, CacheItem>
    const maxSize: int
    var currSize: int
    const pq: PriorityQueue
    ghost var Evicted: seq<CacheItem>
    ghost var Writes: seq<Write>

    /** Map, heap and counter describe the same entries; the heap is in eviction order. */
    ghost predicate Consistent()
      reads this, pq, pq.Repr
    {
      pq.Valid() && ContainerHeap.IsHeap(pq.slots)
      && currSize == |items| == |pq.slots|
      && Agree(items, pq.slots)
    }

    /** Between operations the cache is also within capacity. */
    ghost predicate Valid()
      reads this, pq, pq.Repr
    {
      Consistent() && currSize <= maxSize
    }

    /** The cache part of `CreateServer`: empty map, empty heap, the given capacity. */
    constructor (maxSize: int)
      requires maxSize >= 0
      ensures Valid() && this.maxSize == maxSize
      ensures items == map[] && currSize == 0
      ensures fresh(pq) && pq.Repr == {}
      ensures Evicted == [] && Writes == []
    {
      items := map[];
      this.maxSize := maxSize;
      currSize := 0;
      pq := new PriorityQueue();
      Evicted := [];
      Writes := [];
    }

    /** Lazy-expiry read: a hit needs a stored entry whose deadline is not before `now`. */
    method Get(key: CacheKey, now: int) returns (value: CacheValue, found: bool)
      ensures found <==> key in items && Live(items[key], now)
      ensures found ==> value == items[key].value
      ensures !found ==> value == ZeroValue
    {
      if key !in items || items[key].expiry < now {
        return ZeroValue, false;
      }
      return items[key].value, true;
    }

    /**
     * Upsert with a time-to-live, then capacity eviction. The victims are the
     * entries appended to `Evicted` by this call.
     */
    method SetWithTTL(key: CacheKey, value: CacheValue, ttl: int, now: int)
      requires Valid()
      modifies this, pq, pq.Repr
      ensures |old(Evicted)| <= |Evicted| && Evicted[..|old(Evicted)|] == old(Evicted)
      // victims go highest priority value first, then oldest first
      ensures var vs := Evicted[|old(Evicted)|..];
              forall a, b :: 0 <= a < b < |vs| ==> !EvictsBefore(vs[b], vs[a])
      ensures Valid()
      ensures Writes == old(Writes) + [Write(key, value, ttl, now)]
      ensures old(pq.Repr) <= pq.Repr && fresh(pq.Repr - old(pq.Repr))
      // the key, unless its new entry was itself a victim, maps to the new entry
      ensures key in items ==> fresh(items[key])
      ensures key in items ==> items[key].value == value && items[key].expiry == now + ttl && items[key].timestamp == now
      // every other key keeps the entry it had
      ensures forall k :: k in items && k != key ==> k in old(items) && items[k] == old(items)[k]
      // each victim is an entry the key map held before, or the new entry
      ensures forall v :: v in Evicted[|old(Evicted)|..] ==>
                v.key !in items
                && ((v.key != key && v.key in old(items) && v == old(items)[v.key])
                    || (v.key == key && v.value == value && v.expiry == now + ttl && v.timestamp == now))
      // nothing but the victims leaves the map
      ensures forall k :: k in old(items) && k != key && k !in items ==> old(items)[k] in Evicted[|old(Evicted)|..]
      ensures key !in items ==> exists v :: v in Evicted[|old(Evicted)|..] && v.key == key
      ensures |items| + |Evicted| - |old(Evicted)| == |old(items)| + (if key in old(items) then 0 else 1)
      // the store keeps as many entries as fit
      ensures var n := |old(items)| + (if key in old(items) then 0 else 1);
              currSize == if n <= maxSize then n else maxSize
      // no survivor is ranked before a victim
      ensures forall v, k :: v in Evicted[|old(Evicted)|..] && k in items ==> !EvictsBefore(items[k], v)
    {
      var item := Upsert(key, value, ttl, now);
      ghost var mid := items;
      EvictOverflow();
      SetOutcome(old(items), key, item, mid, items, Evicted[|old(Evicted)|..]);
    }

    /**
     * The first half of `SetWithTTL`: drop the key's old entry from the heap,
     * then store a fresh entry under the key and push it.
     */
    method Upsert(key: CacheKey, value: CacheValue, ttl: int, now: int) returns (item: CacheItem)
      requires Valid()
      modifies this, pq, pq.Repr
      ensures Consistent() && pq.Repr == old(pq.Repr) + {item} && Evicted == old(Evicted)
      ensures Writes == old(Writes) + [Write(key, value, ttl, now)]
      ensures fresh(item) && item.key == key && item.value == value && item.expiry == now + ttl && item.timestamp == now
      ensures items == old(items)[key := item]
    {
      ghost var items0 := items;
      ghost var s0 := pq.slots;
      if key in items {
        Unlink(key);
      }
      item := new CacheItem(key, value, now + ttl, now);
      items := items[key := item];
      ContainerHeap.Push(pq, item);
      currSize := currSize + 1;
      Writes := Writes + [Write(key, value, ttl, now)];
      AgreeAfterUpsert(items0, s0, pq.slots, item);
    }

    /**
     * The found branch of `SetWithTTL`: the key's entry leaves the heap and the
     * counter; the key map keeps it until the new entry overwrites it.
     */
    method Unlink(key: CacheKey)
      requires Valid() && key in items
      modifies this, pq, pq.Repr
      ensures pq.Valid() && ContainerHeap.IsHeap(pq.slots)
      ensures pq.Repr == old(pq.Repr) && items == old(items)
      ensures Evicted == old(Evicted) && Writes == old(Writes)
      ensures currSize == old(currSize) - 1 == |pq.slots|
      ensures forall y :: y in pq.slots <==> y in old(pq.slots) && y != items[key]
    {
      var prev := items[key];
      ContainerHeap.SlotOf(pq, prev);
      currSize := currSize - 1;
      var _ := ContainerHeap.Remove(pq, prev.index);
    }

    /**
     * The capacity loop that ends `SetWithTTL`: while over capacity, evict the
     * heap root.
     */
    method EvictOverflow()
      requires Consistent() && 0 <= maxSize
      modifies this, pq, pq.Repr
      ensures Valid() && pq.Repr == old(pq.Repr) && Writes == old(Writes)
      ensures |old(Evicted)| <= |Evicted| && Evicted[..|old(Evicted)|] == old(Evicted)
      ensures EvictedInOrder(old(items), items, Evicted[|old(Evicted)|..])
      ensures currSize == if |old(items)| <= maxSize then |old(items)| else maxSize
    {
      ghost var vs: seq<CacheItem> := [];
      while currSize > maxSize
        invariant EvictingFrom(old(items), old(Evicted), vs)
        invariant pq.Repr == old(pq.Repr) && Writes == old(Writes)
        decreases currSize
      {
        var evicted := EvictNext(old(items), old(Evicted), vs);
        vs := vs + [evicted];
      }
      assert Evicted[|old(Evicted)|..] == vs;
    }

    /**
     * The state of the capacity loop after evicting `vs`, in this order, from
     * `mid`, with `log` the eviction log before the loop.
     */
    ghost predicate EvictingFrom(mid: map<CacheKey, CacheItem>, log: seq<CacheItem>, vs: seq<CacheItem>)
      reads this, pq, pq.Repr
    {
      Consistent() && Evicted == log + vs && EvictedInOrder(mid, items, vs)
      && (|vs| > 0 ==> currSize >= maxSize)
    }

    /** One round of the capacity loop, as a step of the loop's record of victims. */
    method EvictNext(ghost mid: map<CacheKey, CacheItem>, ghost log: seq<CacheItem>, ghost vs: seq<CacheItem>)
      returns (evicted: CacheItem)
      requires EvictingFrom(mid, log, vs) && 0 <= maxSize < currSize
      modifies this, pq, pq.Repr
      ensures EvictingFrom(mid, log, vs + [evicted])
      ensures pq.Repr == old(pq.Repr) && Writes == old(Writes) && currSize < old(currSize)
    {
      ghost var items1 := items;
      evicted := EvictRoot();
      EvictionStep(mid, items1, vs, evicted, items);
      AppendOne(log, vs, evicted);
    }

    /**
     * One round of the capacity loop: pop the heap root, delete its key and
     * report it to `onEvict`. The root is ranked no later than any entry left.
     */
    method EvictRoot() returns (evicted: CacheItem)
      requires Consistent() && currSize > 0
      modifies this, pq, pq.Repr
      ensures Consistent() && pq.Repr == old(pq.Repr) && Writes == old(Writes)
      ensures evicted.key in old(items) && old(items)[evicted.key] == evicted
      ensures items == old(items) - {evicted.key} && currSize == old(currSize) - 1
      ensures Evicted == old(Evicted) + [evicted]
      ensures forall k :: k in items ==> !EvictsBefore(items[k], evicted)
    {
      ghost var s := pq.slots;
      evicted := ContainerHeap.Pop(pq);
      AgreeAfterEviction(items, s, pq.slots, evicted);
      items := items - {evicted.key};
      currSize := currSize - 1;
      Evicted := Evicted + [evicted];
      forall k | k in items
        ensures !EvictsBefore(items[k], evicted)
      {
        assert items[k] in pq.slots;
      }
    }

    /**
     * The body of the expiry goroutine, run for `key` at time `now`: it removes
     * whatever entry is currently stored under `key`, if its deadline is before `now`.
     */
    method ExpireIfDue(key: CacheKey, now: int)
      requires Valid()
      modifies this, pq, pq.Repr
      ensures Valid() && pq.Repr == old(pq.Repr) && Writes == old(Writes)
      ensures key in old(items) && old(items)[key].expiry < now ==>
                items == old(items) - {key} && Evicted == old(Evicted) + [old(items)[key]]
      ensures !(key in old(items) && old(items)[key].expiry < now) ==>
                items == old(items) && currSize == old(currSize) && pq.slots == old(pq.slots)
                && Evicted == old(Evicted)
    {
      if key in items && items[key].expiry < now {
        var item := items[key];
        ghost var s := pq.slots;
        ContainerHeap.SlotOf(pq, item);
        var _ := ContainerHeap.Remove(pq, item.index);
        items := items - {key};
        currSize := currSize - 1;
        Evicted := Evicted + [item];
        AgreeAfterEviction(old(items), s, pq.slots, item);
      }
    }
  }
}
