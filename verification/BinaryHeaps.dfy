/** `std::collections::BinaryHeap`, reduced to what the kernel relies on: `pop` removes a
    greatest element of the heap under the element type's `Ord`. */
module BinaryHeaps {

  ghost predicate StrictOrder<T(!new)>(less: (T, T) -> bool) {
    && (forall x :: !less(x, x))
    && (forall x, y, z :: less(x, y) && less(y, z) ==> less(x, z))
  }

  method PopGreatest<T(!new)>(heap: seq<T>, less: (T, T) -> bool) returns (top: T, rest: seq<T>)
    requires heap != []
    requires StrictOrder(less)
    ensures multiset(heap) == multiset(rest) + multiset{top}
    ensures |rest| == |heap| - 1
    ensures forall x :: x in rest ==> !less(top, x)
  {
    var best := 0;
    for i := 1 to |heap|
      invariant 0 <= best < i
      invariant forall j :: 0 <= j < i ==> !less(heap[best], heap[j])
    {
      if less(heap[best], heap[i]) {
        best := i;
      }
    }
    top, rest := heap[best], heap[..best] + heap[best + 1..];
    assert heap == heap[..best] + [top] + heap[best + 1..];
    forall x | x in rest ensures !less(top, x) {
      assert x in heap;
    }
  }
}
