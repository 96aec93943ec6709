/**
 * Go's `container/heap` algorithm (Push, Pop, Remove and the sift loops `up` and
 * `down`) run over the cache's PriorityQueue through its Len, Less, Swap, Push and
 * Pop. The heap is a min-heap for `Less`: the root is the next eviction victim.
 */
module ContainerHeap {
  import opened CacheTypes
  import opened PriorityQueues

  /** Go's integer division, which truncates toward zero (so `(0 - 1) / 2 == 0`). */
  function GoDiv(a: int, b: int): (q: int)
    requires b > 0
  {
    if a >= 0 then a / b else -((-a) / b)
  }

  /**
   * Heap order on the first `n` slots: no slot is strictly `Less` than its parent
   * slot, except for the pairs whose parent slot is `skipParent` or whose child slot
   * is `skipChild` (pass -1 for "none").
   */
  ghost predicate OrderedBut(s: seq<CacheItem>, n: int, skipParent: int, skipChild: int)
    requires 0 <= n <= |s|
  {
    forall k :: 0 < k < n && (k - 1) / 2 != skipParent && k != skipChild ==> NotBeforeParent(s, k)
  }

  /** Slot `k` is not strictly `Less` than its parent slot. */
  ghost predicate NotBeforeParent(s: seq<CacheItem>, k: int)
    requires 0 < k < |s|
  {
    !EvictsBefore(s[k], s[(k - 1) / 2])
  }

  ghost predicate IsHeap(s: seq<CacheItem>)
  {
    OrderedBut(s, |s|, -1, -1)
  }

  /** No child of slot `i` (among the first `n`) is strictly `Less` than `e`. */
  ghost predicate ChildrenNotBefore(s: seq<CacheItem>, n: int, i: int, e: CacheItem)
    requires 0 <= i && n <= |s|
  {
    && (2 * i + 1 < n ==> !EvictsBefore(s[2 * i + 1], e))
    && (2 * i + 2 < n ==> !EvictsBefore(s[2 * i + 2], e))
  }

  /** The children of slot `i` (among the first `n`) are not strictly `Less` than the parent of `i`. */
  ghost predicate ChildrenBelowGrandparent(s: seq<CacheItem>, n: int, i: int)
    requires 0 <= i <= n <= |s|
  {
    i > 0 ==> ChildrenNotBefore(s, n, i, s[(i - 1) / 2])
  }

  /** The root of a heap is an eviction candidate that no other entry precedes. */
  lemma {:induction false} RootFirst(s: seq<CacheItem>, k: int)
    requires IsHeap(s) && 0 <= k < |s|
    ensures !EvictsBefore(s[k], s[0])
    decreases k
  {
    if k > 0 {
      var p := (k - 1) / 2;
      assert NotBeforeParent(s, k);
      RootFirst(s, p);
      EvictionOrderIsStrictWeak(s[k], s[p], s[0]);
    }
  }

  lemma SwapPrefix(s: seq<CacheItem>, i: int, j: int, n: int)
    requires 0 <= i < n && 0 <= j < n && n <= |s|
    ensures multiset(s[i := s[j]][j := s[i]][..n]) == multiset(s[..n])
    ensures multiset(s[i := s[j]][j := s[i]]) == multiset(s)
    ensures s[i := s[j]][j := s[i]][n..] == s[n..]
  {
    var t := s[i := s[j]][j := s[i]];
    assert t[..n] == s[..n][i := s[j]][j := s[i]];
  }

  /** One step of `down`: swapping slot `i` with its least child `j` moves the hole to `j`. */
  lemma DownStep(s: seq<CacheItem>, n: int, i0: int, i: int, j: int)
    requires 0 <= i0 <= i < j < n <= |s|
    requires j == 2 * i + 1 || j == 2 * i + 2
    requires OrderedBut(s, n, i, if i == i0 then i0 else -1)
    requires ChildrenBelowGrandparent(s, n, i)
    requires EvictsBefore(s[j], s[i])
    requires ChildrenNotBefore(s, n, i, s[j])
    ensures OrderedBut(s[i := s[j]][j := s[i]], n, j, -1)
    ensures ChildrenBelowGrandparent(s[i := s[j]][j := s[i]], n, j)
  {
    var t := s[i := s[j]][j := s[i]];
    forall k | 0 < k < n && (k - 1) / 2 != j
      ensures NotBeforeParent(t, k)
    {
      var p := (k - 1) / 2;
      if k == j {
        assert p == i;
        EvictionOrderIsStrictWeak(s[j], s[i], s[i]);
      } else if k == i {
        assert (j - 1) / 2 == i;
        assert t[k] == s[j] && t[p] == s[p];
      } else if p == i {
        assert t[k] == s[k] && t[p] == s[j];
      } else {
        assert t[k] == s[k] && t[p] == s[p];
        assert NotBeforeParent(s, k);
      }
    }
    forall c | 0 < c < n && (c - 1) / 2 == j
      ensures !EvictsBefore(t[c], t[(j - 1) / 2])
    {
      assert t[c] == s[c] && t[(j - 1) / 2] == s[j];
      assert NotBeforeParent(s, c);
    }
  }

  /** Where `down` stops, no child of the current slot precedes it. */
  lemma DownStop(s: seq<CacheItem>, n: int, i0: int, i: int)
    requires 0 <= i0 <= i <= n <= |s|
    requires OrderedBut(s, n, i, if i == i0 then i0 else -1)
    requires 2 * i + 1 < n ==> ChildrenNotBefore(s, n, i, s[i])
    ensures OrderedBut(s, n, -1, if i == i0 then i0 else -1)
  {
    forall k | 0 < k < n && k != (if i == i0 then i0 else -1)
      ensures NotBeforeParent(s, k)
    {
      if (k - 1) / 2 != i {
        assert NotBeforeParent(s, k);
      }
    }
  }

  /** One step of `up`: swapping slot `j` with its parent when `j` precedes it. */
  lemma UpStep(s: seq<CacheItem>, n: int, j: int)
    requires 0 < j < n <= |s|
    requires OrderedBut(s, n, -1, j)
    requires ChildrenBelowGrandparent(s, n, j)
    requires EvictsBefore(s[j], s[(j - 1) / 2])
    ensures OrderedBut(s[(j - 1) / 2 := s[j]][j := s[(j - 1) / 2]], n, -1, (j - 1) / 2)
    ensures ChildrenBelowGrandparent(s[(j - 1) / 2 := s[j]][j := s[(j - 1) / 2]], n, (j - 1) / 2)
  {
    var i := (j - 1) / 2;
    var t := s[i := s[j]][j := s[i]];
    forall k | 0 < k < n && k != i
      ensures NotBeforeParent(t, k)
    {
      var p := (k - 1) / 2;
      if k == j {
        EvictionOrderIsStrictWeak(s[j], s[i], s[i]);
      } else if p == j {
        assert t[k] == s[k] && t[p] == s[i];
      } else if p == i {
        assert t[k] == s[k] && t[p] == s[j];
        assert NotBeforeParent(s, k);
        EvictionOrderIsStrictWeak(s[k], s[j], s[i]);
      } else {
        assert t[k] == s[k] && t[p] == s[p];
        assert NotBeforeParent(s, k);
      }
    }
    if i > 0 {
      var g := (i - 1) / 2;
      forall c | 0 < c < n && (c - 1) / 2 == i
        ensures !EvictsBefore(t[c], t[g])
      {
        assert NotBeforeParent(s, i);
        if c == j {
          assert t[c] == s[i] && t[g] == s[g];
        } else {
          assert t[c] == s[c] && t[g] == s[g];
          assert NotBeforeParent(s, c);
          EvictionOrderIsStrictWeak(s[c], s[i], s[g]);
        }
      }
    }
  }

  /** Moving the last slot into slot `i` leaves the heap broken only around `i`. */
  lemma RemoveSetup(s: seq<CacheItem>, i: int)
    requires IsHeap(s) && 0 <= i < |s|
    ensures OrderedBut(s[i := s[|s| - 1]][|s| - 1 := s[i]], |s| - 1, i, i)
    ensures ChildrenBelowGrandparent(s[i := s[|s| - 1]][|s| - 1 := s[i]], |s| - 1, i)
  {
    var n := |s| - 1;
    var t := s[i := s[n]][n := s[i]];
    forall k | 0 < k < n && (k - 1) / 2 != i && k != i
      ensures NotBeforeParent(t, k)
    {
      assert t[k] == s[k] && t[(k - 1) / 2] == s[(k - 1) / 2];
      assert NotBeforeParent(s, k);
    }
    if i > 0 {
      var g := (i - 1) / 2;
      forall c | 0 < c < n && (c - 1) / 2 == i
        ensures !EvictsBefore(t[c], t[g])
      {
        assert t[c] == s[c] && t[g] == s[g];
        assert NotBeforeParent(s, c) && NotBeforeParent(s, i);
        EvictionOrderIsStrictWeak(s[c], s[i], s[g]);
      }
    }
  }

  lemma PrefixHeap(s: seq<CacheItem>, n: int)
    requires 0 <= n <= |s| && OrderedBut(s, n, -1, -1)
    ensures IsHeap(s[..n])
  {
    forall k | 0 < k < n
      ensures NotBeforeParent(s[..n], k)
    {
      assert NotBeforeParent(s, k);
    }
  }

  /** Appending to a heap leaves it ordered except at the new last slot. */
  lemma AppendSetup(s: seq<CacheItem>, x: CacheItem)
    requires IsHeap(s)
    ensures OrderedBut(s + [x], |s| + 1, -1, |s|)
    ensures ChildrenBelowGrandparent(s + [x], |s| + 1, |s|)
  {
    var t := s + [x];
    forall k | 0 < k < |s|
      ensures NotBeforeParent(t, k)
    {
      assert NotBeforeParent(s, k);
    }
  }

  /** Removing `x` from a slice: membership follows the multiset, given that `x` is gone. */
  lemma MembersAfterRemoval(s: seq<CacheItem>, t: seq<CacheItem>, x: CacheItem)
    requires multiset(t) + multiset{x} == multiset(s) && x !in t
    ensures forall y :: y in t <==> y in s && y != x
  {
    forall y
      ensures y in t <==> y in s && y != x
    {
      assert y in t <==> multiset(t)[y] > 0;
      assert y in s <==> multiset(s)[y] > 0;
    }
  }

  /** The last slot and the rest of a slice, after the rest was permuted. */
  lemma SplitLast(s1: seq<CacheItem>, s2: seq<CacheItem>, n: int)
    requires 0 <= n && |s1| == |s2| == n + 1
    requires multiset(s2[..n]) == multiset(s1[..n]) && s2[n..] == s1[n..]
    ensures s2[n] == s1[n]
    ensures multiset(s2[..n]) + multiset{s2[n]} == multiset(s1)
  {
    assert s2[n] == s2[n..][0];
    assert s1 == s1[..n] + [s1[n]];
  }

  /** An entry whose index is -1 occupies no slot. */
  lemma PoppedIsGone(h: PriorityQueue, x: CacheItem)
    requires h.Valid() && x.index == -1
    ensures x !in h.slots
  {
    forall k | 0 <= k < |h.slots|
      ensures h.slots[k] != x
    {
      assert h.slots[k].index == k;
    }
  }

  /** An entry held by the queue sits in the slot its index names. */
  lemma SlotOf(h: PriorityQueue, y: CacheItem)
    requires h.Valid() && y in h.slots
    ensures 0 <= y.index < |h.slots| && h.slots[y.index] == y
  {
    var k :| 0 <= k < |h.slots| && h.slots[k] == y;
  }


  /** The child `down` compares slot `i` with: the left one, or the right one when it is strictly `Less`. */
  ghost function LeastChild(s: seq<CacheItem>, i: int, n: int): (j: int)
    requires 0 <= i && 2 * i + 1 < n <= |s|
    ensures j == 2 * i + 1 || j == 2 * i + 2
    ensures j < n
  {
    if 2 * i + 2 < n && EvictsBefore(s[2 * i + 2], s[2 * i + 1]) then 2 * i + 2 else 2 * i + 1
  }

  /** Whether `down` from slot `i` makes a swap: slot `i` has a child that is strictly `Less`. */
  ghost predicate DownMoves(s: seq<CacheItem>, i: int, n: int)
    requires 0 <= i <= n <= |s|
  {
    2 * i + 1 < n && EvictsBefore(s[LeastChild(s, i, n)], s[i])
  }

  /** The slice that `down(h, i, n)` leaves behind. */
  ghost function SiftDown(s: seq<CacheItem>, i: int, n: int): (t: seq<CacheItem>)
    requires 0 <= i <= n <= |s|
    ensures |t| == |s|
    decreases n - i
  {
    if DownMoves(s, i, n) then
      var j := LeastChild(s, i, n);
      SiftDown(s[i := s[j]][j := s[i]], j, n)
    else
      s
  }

  /** The slice that `up(h, j)` leaves behind. */
  ghost function SiftUp(s: seq<CacheItem>, j: int): (t: seq<CacheItem>)
    requires 0 <= j < |s|
    ensures |t| == |s|
    decreases j
  {
    var i := GoDiv(j - 1, 2);
    if i == j || !EvictsBefore(s[j], s[i]) then
      s
    else
      SiftUp(s[i := s[j]][j := s[i]], i)
  }

  /** `down` only permutes the first `n` slots. */
  lemma {:induction false} SiftDownPermutes(s: seq<CacheItem>, i: int, n: int)
    requires 0 <= i <= n <= |s|
    ensures multiset(SiftDown(s, i, n)[..n]) == multiset(s[..n])
    ensures SiftDown(s, i, n)[n..] == s[n..]
    decreases n - i
  {
    if DownMoves(s, i, n) {
      var j := LeastChild(s, i, n);
      SwapPrefix(s, i, j, n);
      SiftDownPermutes(s[i := s[j]][j := s[i]], j, n);
    }
  }

  /**
   * `down` restores heap order below slot `i0`: once it has moved, the first `n`
   * slots are a heap; if it does not move, only the pair above `i0` may be out of order.
   */
  lemma {:induction false} SiftDownOrders(s: seq<CacheItem>, n: int, i0: int, i: int)
    requires 0 <= i0 <= i <= n <= |s|
    requires OrderedBut(s, n, i, if i == i0 then i0 else -1)
    requires ChildrenBelowGrandparent(s, n, i)
    ensures OrderedBut(SiftDown(s, i, n), n, -1, if i > i0 || DownMoves(s, i, n) then -1 else i0)
    decreases n - i
  {
    if DownMoves(s, i, n) {
      var j := LeastChild(s, i, n);
      EvictionOrderIsStrictWeak(s[2 * i + 1], s[j], s[i]);
      if 2 * i + 2 < n {
        EvictionOrderIsStrictWeak(s[2 * i + 2], s[2 * i + 1], s[j]);
      }
      DownStep(s, n, i0, i, j);
      SiftDownOrders(s[i := s[j]][j := s[i]], n, i0, j);
    } else {
      if 2 * i + 1 < n {
        var j := LeastChild(s, i, n);
        EvictionOrderIsStrictWeak(s[2 * i + 1], s[j], s[i]);
        if 2 * i + 2 < n {
          EvictionOrderIsStrictWeak(s[2 * i + 2], s[j], s[i]);
        }
      }
      DownStop(s, n, i0, i);
    }
  }

  /** `up` only permutes the slots up to `j`. */
  lemma {:induction false} SiftUpPermutes(s: seq<CacheItem>, j: int, n: int)
    requires 0 <= j < n <= |s|
    ensures multiset(SiftUp(s, j)[..n]) == multiset(s[..n])
    ensures SiftUp(s, j)[n..] == s[n..]
    decreases j
  {
    var i := GoDiv(j - 1, 2);
    if i != j && EvictsBefore(s[j], s[i]) {
      SwapPrefix(s, i, j, n);
      SiftUpPermutes(s[i := s[j]][j := s[i]], i, n);
    }
  }

  /** `up` restores heap order when only the pair above slot `j` may be out of order. */
  lemma {:induction false} SiftUpOrders(s: seq<CacheItem>, n: int, j: int)
    requires 0 <= j < n <= |s|
    requires OrderedBut(s, n, -1, j)
    requires ChildrenBelowGrandparent(s, n, j)
    ensures OrderedBut(SiftUp(s, j), n, -1, -1)
    decreases j
  {
    var i := GoDiv(j - 1, 2);
    if i != j && EvictsBefore(s[j], s[i]) {
      UpStep(s, n, j);
      SiftUpOrders(s[i := s[j]][j := s[i]], n, i);
    } else if j > 0 {
      assert NotBeforeParent(s, j);
    }
  }

  /** The slice `heap.Push` leaves: `x` appended, then moved `up`. */
  ghost function PushSifted(s: seq<CacheItem>, x: CacheItem): (t: seq<CacheItem>)
  {
    SiftUp(s + [x], |s|)
  }

  /** `heap.Push` keeps heap order and adds exactly `x`. */
  lemma PushSiftedSpec(s: seq<CacheItem>, x: CacheItem)
    requires IsHeap(s)
    ensures |PushSifted(s, x)| == |s| + 1
    ensures IsHeap(PushSifted(s, x))
    ensures multiset(PushSifted(s, x)) == multiset(s) + multiset{x}
  {
    var a := s + [x];
    var n := |a|;
    AppendSetup(s, x);
    SiftUpOrders(a, n, n - 1);
    SiftUpPermutes(a, n - 1, n);
    var t := SiftUp(a, n - 1);
    assert t[..n] == t && a[..n] == a;
  }

  /** The slice `heap.Pop` leaves before its final `Pop`: the last slot moved to the root, then `down`. */
  ghost function PopSifted(s: seq<CacheItem>): (t: seq<CacheItem>)
    requires |s| > 0
    ensures |t| == |s|
  {
    var n := |s| - 1;
    SiftDown(s[0 := s[n]][n := s[0]], 0, n)
  }

  /** What `heap.Pop` leaves: the old root in the last slot, and a heap of the rest before it. */
  lemma PopSiftedSpec(s: seq<CacheItem>)
    requires IsHeap(s) && |s| > 0
    ensures PopSifted(s)[|s| - 1] == s[0]
    ensures IsHeap(PopSifted(s)[..|s| - 1])
    ensures multiset(PopSifted(s)[..|s| - 1]) + multiset{s[0]} == multiset(s)
  {
    var n := |s| - 1;
    var s1 := s[0 := s[n]][n := s[0]];
    RemoveSetup(s, 0);
    SwapPrefix(s, 0, n, n + 1);
    assert s[..n + 1] == s;
    SiftDownPermutes(s1, 0, n);
    SiftDownOrders(s1, n, 0, 0);
    SplitLast(s1, SiftDown(s1, 0, n), n);
    PrefixHeap(SiftDown(s1, 0, n), n);
  }

  /** The slice that `down(h, i, n)`, followed by `up(h, i)` when `down` did not move, leaves behind. */
  ghost function Settled(s: seq<CacheItem>, i: int, n: int): (t: seq<CacheItem>)
    requires 0 <= i < n <= |s|
    ensures |t| == |s|
  {
    if DownMoves(s, i, n) then SiftDown(s, i, n) else SiftUp(s, i)
  }

  /** Settling the one entry out of place at slot `i` makes the first `n` slots a heap again. */
  lemma SettledSpec(s: seq<CacheItem>, i: int, n: int)
    requires 0 <= i < n <= |s|
    requires OrderedBut(s, n, i, i)
    requires ChildrenBelowGrandparent(s, n, i)
    ensures OrderedBut(Settled(s, i, n), n, -1, -1)
    ensures multiset(Settled(s, i, n)[..n]) == multiset(s[..n])
    ensures Settled(s, i, n)[n..] == s[n..]
  {
    SiftDownOrders(s, n, i, i);
    if DownMoves(s, i, n) {
      SiftDownPermutes(s, i, n);
    } else {
      SiftUpPermutes(s, i, n);
      SiftUpOrders(s, n, i);
    }
  }

  /**
   * The slice `heap.Remove(h, i)` leaves before its final `Pop`: unless `i` is the
   * last slot, the last slot moved into slot `i` and settled there.
   */
  ghost function RemoveSifted(s: seq<CacheItem>, i: int): (t: seq<CacheItem>)
    requires 0 <= i < |s|
    ensures |t| == |s|
  {
    var n := |s| - 1;
    if n == i then s else Settled(s[i := s[n]][n := s[i]], i, n)
  }

  /** What `heap.Remove(h, i)` leaves: the entry of slot `i` in the last slot, and a heap of the rest. */
  lemma RemoveSiftedSpec(s: seq<CacheItem>, i: int)
    requires IsHeap(s) && 0 <= i < |s|
    ensures RemoveSifted(s, i)[|s| - 1] == s[i]
    ensures IsHeap(RemoveSifted(s, i)[..|s| - 1])
    ensures multiset(RemoveSifted(s, i)[..|s| - 1]) + multiset{s[i]} == multiset(s)
  {
    var n := |s| - 1;
    var t := RemoveSifted(s, i);
    if n == i {
      SplitLast(s, s, n);
      PrefixHeap(s, n);
    } else {
      var s1 := s[i := s[n]][n := s[i]];
      RemoveSetup(s, i);
      SwapPrefix(s, i, n, n + 1);
      assert s[..n + 1] == s;
      SettledSpec(s1, i, n);
      SplitLast(s1, t, n);
      PrefixHeap(t, n);
    }
  }

  /** `up(h, j)`: moves the entry at slot `j` toward the root while it is strictly `Less` than its parent. */
  method Up(h: PriorityQueue, j0: int)
    requires h.Valid() && 0 <= j0 < |h.slots|
    modifies h, h.Repr
    ensures h.Valid() && h.Repr == old(h.Repr) && |h.slots| == |old(h.slots)|
    ensures h.slots == SiftUp(old(h.slots), j0)
  {
    var j := j0;
    while true
      invariant h.Valid() && h.Repr == old(h.Repr) && |h.slots| == |old(h.slots)|
      invariant 0 <= j < |h.slots|
      invariant SiftUp(h.slots, j) == SiftUp(old(h.slots), j0)
      decreases j
    {
      var i := GoDiv(j - 1, 2);
      if i == j || !h.Less(j, i) {
        assert SiftUp(h.slots, j) == h.slots;
        break;
      }
      ghost var s := h.slots;
      assert SiftUp(s, j) == SiftUp(s[i := s[j]][j := s[i]], i);
      h.Swap(i, j);
      j := i;
    }
  }

  /**
   * `down(h, i0, n)`: moves the entry at slot `i0` away from the root, among the
   * first `n` slots, while some child is strictly `Less` than it; reports whether it moved.
   */
  method Down(h: PriorityQueue, i0: int, n: int) returns (moved: bool)
    requires h.Valid() && 0 <= i0 <= n <= |h.slots|
    modifies h, h.Repr
    ensures h.Valid() && h.Repr == old(h.Repr) && |h.slots| == |old(h.slots)|
    ensures h.slots == SiftDown(old(h.slots), i0, n)
    ensures moved <==> DownMoves(old(h.slots), i0, n)
  {
    var i := i0;
    while true
      invariant h.Valid() && h.Repr == old(h.Repr) && |h.slots| == |old(h.slots)|
      invariant i0 <= i <= n
      invariant SiftDown(h.slots, i, n) == SiftDown(old(h.slots), i0, n)
      invariant i == i0 ==> h.slots == old(h.slots)
      invariant i > i0 ==> DownMoves(old(h.slots), i0, n)
      decreases n - i
    {
      var j1 := 2 * i + 1;
      if j1 >= n {
        assert SiftDown(h.slots, i, n) == h.slots;
        break;
      }
      var j := j1;
      var j2 := j1 + 1;
      if j2 < n && h.Less(j2, j1) {
        j := j2;
      }
      assert j == LeastChild(h.slots, i, n);
      if !h.Less(j, i) {
        assert SiftDown(h.slots, i, n) == h.slots;
        break;
      }
      ghost var s := h.slots;
      assert SiftDown(s, i, n) == SiftDown(s[i := s[j]][j := s[i]], j, n);
      h.Swap(i, j);
      i := j;
    }
    moved := i > i0;
  }

  /** `down(h, i, n)`, then `up(h, i)` when the entry did not move down. */
  method Settle(h: PriorityQueue, i: int, n: int)
    requires h.Valid() && 0 <= i < n <= |h.slots|
    modifies h, h.Repr
    ensures h.Valid() && h.Repr == old(h.Repr)
    ensures h.slots == Settled(old(h.slots), i, n)
  {
    var moved := Down(h, i, n);
    if !moved {
      Up(h, i);
    }
  }

  /** `heap.Push`: appends `x` and restores heap order. */
  method Push(h: PriorityQueue, x: CacheItem)
    requires h.Valid() && IsHeap(h.slots) && x !in h.slots
    modifies h, h.Repr, x
    ensures h.Valid() && IsHeap(h.slots)
    ensures h.Repr == old(h.Repr) + {x}
    ensures |h.slots| == |old(h.slots)| + 1
    ensures multiset(h.slots) == multiset(old(h.slots)) + multiset{x}
    ensures forall y :: y in h.slots <==> y in old(h.slots) || y == x
  {
    PushSiftedSpec(h.slots, x);
    h.Push(x);
    Up(h, h.Len() - 1);
    forall y
      ensures y in h.slots <==> y in old(h.slots) || y == x
    {
      assert y in h.slots <==> multiset(h.slots)[y] > 0;
      assert y in old(h.slots) <==> multiset(old(h.slots))[y] > 0;
    }
  }

  /** `heap.Pop`: removes and returns the root, an entry that no remaining entry is strictly `Less` than. */
  method Pop(h: PriorityQueue) returns (x: CacheItem)
    requires h.Valid() && IsHeap(h.slots) && |h.slots| > 0
    modifies h, h.Repr
    ensures h.Valid() && IsHeap(h.slots)
    ensures h.Repr == old(h.Repr)
    ensures x == old(h.slots)[0] && x.index == -1
    ensures |h.slots| == |old(h.slots)| - 1
    ensures multiset(h.slots) + multiset{x} == multiset(old(h.slots))
    ensures forall y :: y in h.slots <==> y in old(h.slots) && y != x
    ensures forall y :: y in h.slots ==> !EvictsBefore(y, x)
  {
    ghost var s := h.slots;
    PopSiftedSpec(s);
    var n := h.Len() - 1;
    h.Swap(0, n);
    var _ := Down(h, 0, n);
    x := h.Pop();
    PoppedIsGone(h, x);
    MembersAfterRemoval(s, h.slots, x);
    forall y | y in h.slots
      ensures !EvictsBefore(y, x)
    {
      var m :| 0 <= m < |s| && s[m] == y;
      RootFirst(s, m);
    }
  }

  /** `heap.Remove(h, i)`: removes and returns the entry in slot `i`, keeping heap order. */
  method Remove(h: PriorityQueue, i: int) returns (x: CacheItem)
    requires h.Valid() && IsHeap(h.slots) && 0 <= i < |h.slots|
    modifies h, h.Repr
    ensures h.Valid() && IsHeap(h.slots)
    ensures h.Repr == old(h.Repr)
    ensures x == old(h.slots)[i] && x.index == -1
    ensures |h.slots| == |old(h.slots)| - 1
    ensures multiset(h.slots) + multiset{x} == multiset(old(h.slots))
    ensures forall y :: y in h.slots <==> y in old(h.slots) && y != x
  {
    ghost var s := h.slots;
    RemoveSiftedSpec(s, i);
    var n := h.Len() - 1;
    if n != i {
      h.Swap(i, n);
      Settle(h, i, n);
    }
    x := h.Pop();
    PoppedIsGone(h, x);
    MembersAfterRemoval(s, h.slots, x);
  }
}
