/** The `PriorityQueue` slice type and the five methods `container/heap` drives it through. */
module PriorityQueues {
  import opened CacheTypes

  /**
   * A slice of shared entries. `slots` is the slice header: `Push` and `Pop`
   * reassign it, `Swap` rewrites two slots. Every entry records its own slot
   * in `index`, so that the cache can find an entry's heap position from the key map.
   */
  class PriorityQueue {
    var slots: seq<CacheItem>
    /** Every entry this queue has held: the objects its methods may update. */
    ghost var Repr: set<CacheItem>

    /** Slot bookkeeping: each entry knows its slot (so no entry occupies two slots). */
    ghost predicate Valid()
      reads this, Repr
    {
      forall k :: 0 <= k < |slots| ==> slots[k] in Repr && slots[k].index == k
    }

    constructor ()
      ensures slots == [] && Repr == {} && Valid()
    {
      slots := [];
      Repr := {};
    }

    /** Number of occupied slots. */
    function Len(): nat
      reads this
    {
      |slots|
    }

    /** Go's comparator: higher priority value first, then the older entry. */
    function Less(i: int, j: int): (r: bool)
      requires 0 <= i < |slots| && 0 <= j < |slots|
      reads this
      ensures r <==> EvictsBefore(slots[i], slots[j])
    {
      if slots[i].value.priority == slots[j].value.priority then
        slots[i].timestamp < slots[j].timestamp
      else
        slots[i].value.priority > slots[j].value.priority
    }

    method Swap(i: int, j: int)
      requires Valid()
      requires 0 <= i < |slots| && 0 <= j < |slots|
      modifies this, slots[i], slots[j]
      ensures Valid() && Repr == old(Repr)
      ensures slots == old(slots)[i := old(slots)[j]][j := old(slots)[i]]
      ensures slots[i].index == i && slots[j].index == j
    {
      slots := slots[i := slots[j]][j := slots[i]];
      slots[i].index := i;
      slots[j].index := j;
    }

    /** Appends `x`; its index becomes the old length. */
    method Push(x: CacheItem)
      requires Valid() && x !in slots
      modifies this, x
      ensures Valid() && Repr == old(Repr) + {x}
      ensures slots == old(slots) + [x] && x.index == |old(slots)|
    {
      var n := |slots|;
      x.index := n;
      slots := slots + [x];
      Repr := Repr + {x};
    }

    /** Removes the last slot and returns its entry, marked as no longer in the heap. */
    method Pop() returns (x: CacheItem)
      requires Valid() && |slots| > 0
      modifies this, slots[|slots| - 1]
      ensures Valid() && Repr == old(Repr)
      ensures x == old(slots)[|old(slots)| - 1]
      ensures slots == old(slots)[..|old(slots)| - 1]
      ensures x.index == -1
    {
      var n := |slots|;
      x := slots[n - 1];
      x.index := -1;
      slots := slots[..n - 1];
    }
  }
}
