/** The binary min-heap of the scheduler: `heapq` on tuples. */
module Heapq {
  import opened Expiry

  function Parent(i: nat): nat
    requires i > 0
  {
    (i - 1) / 2
  }

  ghost predicate Ordered(h: seq<Entry>, i: nat)
    requires 0 < i < |h|
  {
    Leq(h[Parent(i)], h[i])
  }

  ghost predicate IsHeap(h: seq<Entry>) {
    forall i :: 0 < i < |h| ==> Ordered(h, i)
  }

  /** The top of a heap is its least element. */
  lemma {:induction false} TopIsLeast(h: seq<Entry>, i: nat)
    requires IsHeap(h) && i < |h|
    ensures Leq(h[0], h[i])
  {
    if i == 0 {
      LeqTotal(h[0], h[0]);
    } else {
      TopIsLeast(h, Parent(i));
      assert Ordered(h, i);
      LeqTransitive(h[0], h[Parent(i)], h[i]);
    }
  }

  /** A heap but for the element at `pos`, which may be too small for its place. */
  ghost predicate HeapButSmall(h: seq<Entry>, pos: nat) {
    && (forall i :: 0 < i < |h| && i != pos ==> Ordered(h, i))
    && (forall i :: 0 < i < |h| && Parent(i) == pos && pos > 0 && pos < |h| ==> Leq(h[Parent(pos)], h[i]))
  }

  /** A heap but for the element at `pos`, which may belong anywhere. */
  ghost predicate HeapButHole(h: seq<Entry>, pos: nat) {
    && (forall i :: 0 < i < |h| && i != pos && Parent(i) != pos ==> Ordered(h, i))
    && (forall i :: 0 < i < |h| && Parent(i) == pos && pos > 0 && pos < |h| ==> Leq(h[Parent(pos)], h[i]))
  }

  function Swapped(h: seq<Entry>, i: nat, j: nat): seq<Entry>
    requires i < |h| && j < |h|
  {
    h[i := h[j]][j := h[i]]
  }

  lemma SwapKeepsElements(h: seq<Entry>, i: nat, j: nat)
    requires i < |h| && j < |h|
    ensures multiset(Swapped(h, i, j)) == multiset(h)
  {}

  lemma MoveUpStep(h: seq<Entry>, pos: nat)
    requires 0 < pos < |h| && HeapButSmall(h, pos) && Less(h[pos], h[Parent(pos)])
    ensures HeapButSmall(Swapped(h, pos, Parent(pos)), Parent(pos))
  {
    var p := Parent(pos);
    var r := Swapped(h, pos, p);
    LeqTotal(h[pos], h[p]);
    forall i | 0 < i < |h| && i != p ensures Ordered(r, i) {
      if i != pos {
        assert Ordered(h, i);
        if Parent(i) == p { LeqTransitive(h[pos], h[p], h[i]); }
      }
    }
    if p > 0 {
      assert Ordered(h, p);
      forall i | 0 < i < |h| && Parent(i) == p ensures Leq(r[Parent(p)], r[i]) {
        if i != pos {
          assert Ordered(h, i);
          LeqTransitive(h[Parent(p)], h[p], h[i]);
        }
      }
    }
  }

  /** `_siftdown`: move the element at `pos` towards the root until its parent is not greater. */
  method SiftDown(heap: seq<Entry>, start: nat) returns (r: seq<Entry>)
    requires start < |heap| && HeapButSmall(heap, start)
    ensures IsHeap(r) && multiset(r) == multiset(heap)
  {
    r := heap;
    var pos: nat := start;
    while pos > 0 && Less(r[pos], r[Parent(pos)])
      invariant pos < |r| && HeapButSmall(r, pos)
      invariant multiset(r) == multiset(heap)
    {
      MoveUpStep(r, pos);
      SwapKeepsElements(r, pos, Parent(pos));
      r := Swapped(r, pos, Parent(pos));
      pos := Parent(pos);
    }
  }

  lemma MoveDownStep(h: seq<Entry>, pos: nat, child: nat)
    requires pos < child < |h| && Parent(child) == pos && HeapButHole(h, pos)
    requires forall i :: 0 < i < |h| && Parent(i) == pos ==> Leq(h[child], h[i])
    ensures HeapButHole(Swapped(h, pos, child), child)
  {
    var r := Swapped(h, pos, child);
    forall i | 0 < i < |h| && i != child && Parent(i) != child ensures Ordered(r, i) {
      if i != pos && Parent(i) != pos { assert Ordered(h, i); }
    }
    forall i | 0 < i < |h| && Parent(i) == child ensures Leq(r[Parent(child)], r[i]) {
      assert Ordered(h, i);
    }
  }

  /** The smaller child of `pos`, the right one if they are equal. */
  method SmallerChild(h: seq<Entry>, pos: nat) returns (child: nat)
    requires 2 * pos + 1 < |h|
    ensures pos < child < |h| && Parent(child) == pos
    ensures forall i :: 0 < i < |h| && Parent(i) == pos ==> Leq(h[child], h[i])
  {
    child := 2 * pos + 1;
    LeqTotal(h[child], h[child]);
    if child + 1 < |h| {
      LeqTotal(h[child], h[child + 1]);
      LeqTotal(h[child + 1], h[child + 1]);
      if !Less(h[child], h[child + 1]) { child := child + 1; }
    }
    assert forall i :: 0 < i < |h| && Parent(i) == pos ==> i == 2 * pos + 1 || i == 2 * pos + 2;
  }

  lemma LeafIsSmallOnly(h: seq<Entry>, pos: nat)
    requires HeapButHole(h, pos) && 2 * pos + 1 >= |h|
    ensures HeapButSmall(h, pos)
  {}

  /** `_siftup` on the root: bring the smaller children up to a leaf, then settle the element from there. */
  method SiftUp(heap: seq<Entry>) returns (r: seq<Entry>)
    requires heap != [] && HeapButHole(heap, 0)
    ensures IsHeap(r) && multiset(r) == multiset(heap)
  {
    r := heap;
    var pos: nat := 0;
    while 2 * pos + 1 < |r|
      invariant pos < |r| && HeapButHole(r, pos)
      invariant multiset(r) == multiset(heap)
      decreases |r| - pos
    {
      var child := SmallerChild(r, pos);
      MoveDownStep(r, pos, child);
      SwapKeepsElements(r, pos, child);
      r := Swapped(r, pos, child);
      pos := child;
    }
    LeafIsSmallOnly(r, pos);
    r := SiftDown(r, pos);
  }

  method HeapPush(heap: seq<Entry>, item: Entry) returns (r: seq<Entry>)
    requires IsHeap(heap)
    ensures IsHeap(r) && multiset(r) == multiset(heap) + multiset{item}
  {
    var h := heap + [item];
    forall i | 0 < i < |heap| ensures Ordered(h, i) {
      assert Ordered(heap, i);
    }
    r := SiftDown(h, |heap|);
  }

  method HeapPop(heap: seq<Entry>) returns (item: Entry, r: seq<Entry>)
    requires IsHeap(heap) && heap != []
    ensures IsHeap(r) && multiset(heap) == multiset(r) + multiset{item}
    ensures item == heap[0] && forall e :: e in heap ==> Leq(item, e)
  {
    forall e | e in heap ensures Leq(heap[0], e) {
      var i :| 0 <= i < |heap| && heap[i] == e;
      TopIsLeast(heap, i);
    }
    item := heap[|heap| - 1];
    r := heap[..|heap| - 1];
    assert heap == r + [item];
    if r != [] {
      var last := item;
      item := r[0];
      assert multiset(r[0 := last]) + multiset{item} == multiset(heap);
      forall i | 0 < i < |r| && Parent(i) != 0 ensures Ordered(r[0 := last], i) {
        assert Ordered(heap, i);
      }
      r := SiftUp(r[0 := last]);
    }
  }
}
