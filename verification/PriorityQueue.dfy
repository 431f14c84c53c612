/** The binary heap of queue/priority_queue.hpp, for any element type and any strict weak order. */
module PriorityQueue {
  datatype Result<T> = Ok(value: T) | HeapIsEmpty

  function Parent(i: int): int { (i - 1) / 2 }

  // What a comparator has to satisfy.
  ghost predicate StrictWeakOrder<T(!new)>(comp: (T, T) -> bool) {
    && (forall x :: !comp(x, x))
    && (forall x, y, z {:trigger comp(x, y), comp(y, z)} :: comp(x, y) && comp(y, z) ==> comp(x, z))
    && (forall x, y, z {:trigger comp(x, y), comp(y, z)} {:trigger comp(x, y), comp(x, z)} ::
          !comp(x, y) && !comp(y, x) && !comp(y, z) && !comp(z, y) ==> !comp(x, z))
  }

  // Not being below is transitive.
  lemma NotBelow<T(!new)>(comp: (T, T) -> bool, x: T, y: T, z: T)
    requires StrictWeakOrder(comp) && !comp(x, y) && !comp(y, z)
    ensures !comp(x, z)
  {
    assert comp(y, x) && comp(x, z) ==> comp(y, z);
    assert comp(x, z) && comp(z, y) ==> comp(x, y);
  }

  ghost predicate Above<T>(comp: (T, T) -> bool, h: seq<T>, i: int, j: int)
    requires 0 <= i < |h| && 0 <= j < |h|
  {
    !comp(h[i], h[j])
  }

  // No element is below its parent, except perhaps the one at `except`.
  ghost predicate HeapBut<T>(comp: (T, T) -> bool, h: seq<T>, except: int) {
    forall j {:trigger Above(comp, h, Parent(j), j)} :: 0 < j < |h| && j != except ==> Above(comp, h, Parent(j), j)
  }

  ghost predicate Heap<T>(comp: (T, T) -> bool, h: seq<T>) { HeapBut(comp, h, 0) }

  // The children of i fit under its parent, whatever i itself holds.
  ghost predicate Bridged<T>(comp: (T, T) -> bool, h: seq<T>, i: int) {
    forall j {:trigger Above(comp, h, Parent(Parent(j)), j)} ::
      0 < j < |h| && Parent(j) == i && 0 < i < |h| ==> Above(comp, h, Parent(Parent(j)), j)
  }

  // Heap order everywhere except between i and its children.
  ghost predicate HeapAbove<T>(comp: (T, T) -> bool, h: seq<T>, i: int) {
    forall j {:trigger Above(comp, h, Parent(j), j)} :: 0 < j < |h| && Parent(j) != i ==> Above(comp, h, Parent(j), j)
  }

  function Swap<T>(h: seq<T>, i: int, j: int): seq<T>
    requires 0 <= i < |h| && 0 <= j < |h|
  {
    h[i := h[j]][j := h[i]]
  }

  lemma SwapKeeps<T>(h: seq<T>, i: int, j: int)
    requires 0 <= i < |h| && 0 <= j < |h|
    ensures multiset(Swap(h, i, j)) == multiset(h)
  {
  }

  // One step up: the defect moves from i to its parent.
  lemma StepUp<T(!new)>(comp: (T, T) -> bool, h: seq<T>, i: int)
    requires StrictWeakOrder(comp) && 0 < i < |h| && HeapBut(comp, h, i) && Bridged(comp, h, i)
    requires comp(h[Parent(i)], h[i])
    ensures HeapBut(comp, Swap(h, Parent(i), i), Parent(i)) && Bridged(comp, Swap(h, Parent(i), i), Parent(i))
  {
    var p := Parent(i);
    var u := Swap(h, p, i);
    assert !comp(h[i], h[p]);
    forall j | 0 < j < |u| && j != p ensures Above(comp, u, Parent(j), j) {
      if j != i {
        assert Above(comp, h, Parent(j), j);
        if Parent(j) == i { assert Above(comp, h, Parent(Parent(j)), j); }
        if Parent(j) == p { NotBelow(comp, h[i], h[p], h[j]); }
      }
    }
    forall j | 0 < j < |u| && Parent(j) == p && 0 < p ensures Above(comp, u, Parent(Parent(j)), j) {
      assert Above(comp, h, Parent(p), p);
      if j != i {
        assert Above(comp, h, p, j);
        NotBelow(comp, h[Parent(p)], h[p], h[j]);
      }
    }
  }

  // One step down: the defect moves from i to the child c that holds the larger element.
  lemma StepDown<T(!new)>(comp: (T, T) -> bool, h: seq<T>, i: int, c: int)
    requires StrictWeakOrder(comp) && 0 <= i < c < |h| && Parent(c) == i && HeapAbove(comp, h, i) && Bridged(comp, h, i)
    requires comp(h[i], h[c])
    requires forall j {:trigger Above(comp, h, c, j)} :: 0 < j < |h| && Parent(j) == i ==> Above(comp, h, c, j)
    ensures HeapAbove(comp, Swap(h, c, i), c) && Bridged(comp, Swap(h, c, i), c)
  {
    var u := Swap(h, c, i);
    assert !comp(h[c], h[i]);
    forall j | 0 < j < |u| && Parent(j) != c ensures Above(comp, u, Parent(j), j) {
      if Parent(j) == i {
        assert Above(comp, h, c, j);
      } else {
        assert Above(comp, h, Parent(j), j);
        if j == i { assert Above(comp, h, Parent(Parent(c)), c); }
      }
    }
    forall j | 0 < j < |u| && Parent(j) == c ensures Above(comp, u, Parent(Parent(j)), j) {
      assert Above(comp, h, Parent(j), j);
    }
  }

  // No element of a heap is above its first.
  lemma {:induction false} FirstIsTop<T(!new)>(comp: (T, T) -> bool, h: seq<T>, i: int)
    requires StrictWeakOrder(comp) && Heap(comp, h) && 0 <= i < |h|
    ensures Above(comp, h, 0, i)
    decreases i
  {
    if 0 < i {
      FirstIsTop(comp, h, Parent(i));
      assert Above(comp, h, Parent(i), i);
      NotBelow(comp, h[0], h[Parent(i)], h[i]);
    }
  }

  ghost predicate IsTop<T>(comp: (T, T) -> bool, contents: multiset<T>, x: T) {
    x in contents && forall y :: y in contents ==> !comp(x, y)
  }

  // Each element is not above the one before.
  ghost predicate InOrder<T>(comp: (T, T) -> bool, s: seq<T>) {
    forall i, j :: 0 <= i < j < |s| ==> !comp(s[i], s[j])
  }

  class PriorityQueue<T(==, !new)> {
    var heap: seq<T>
    const comp: (T, T) -> bool

    ghost predicate Valid()
      reads this
    {
      StrictWeakOrder(comp) && Heap(comp, heap)
    }

    ghost function Contents(): multiset<T>
      reads this
    {
      multiset(heap)
    }

    constructor (c: (T, T) -> bool)
      requires StrictWeakOrder(c)
      ensures Valid() && Contents() == multiset{} && comp == c
    {
      heap, comp := [], c;
    }

    predicate Empty()
      reads this
    {
      heap == []
    }

    method HeapifyUp(start: int)
      requires StrictWeakOrder(comp) && 0 <= start < |heap| && HeapBut(comp, heap, start) && Bridged(comp, heap, start)
      modifies this`heap
      ensures Valid() && Contents() == old(Contents())
    {
      var index := start;
      while index > 0
        invariant 0 <= index < |heap| && Contents() == old(Contents())
        invariant HeapBut(comp, heap, index) && Bridged(comp, heap, index)
      {
        var parent := (index - 1) / 2;
        if comp(heap[parent], heap[index]) {
          StepUp(comp, heap, index);
          SwapKeeps(heap, parent, index);
          heap := Swap(heap, parent, index);
          index := parent;
        } else {
          assert Above(comp, heap, Parent(index), index);
          break;
        }
      }
    }

    method HeapifyDown(index: int)
      requires StrictWeakOrder(comp) && 0 <= index < |heap| && HeapAbove(comp, heap, index)
      requires Bridged(comp, heap, index)
      modifies this`heap
      ensures Valid() && Contents() == old(Contents())
      decreases |heap| - index
    {
      var left := 2 * index + 1;
      var right := 2 * index + 2;
      var largest := index;
      if left < |heap| && comp(heap[largest], heap[left]) { largest := left; }
      if right < |heap| && comp(heap[largest], heap[right]) { largest := right; }
      LargestOfThree(comp, heap, index, largest);
      if largest != index {
        StepDown(comp, heap, index, largest);
        SwapKeeps(heap, largest, index);
        heap := Swap(heap, largest, index);
        HeapifyDown(largest);
      }
    }

    method Push(value: T)
      requires Valid()
      modifies this`heap
      ensures Valid() && Contents() == old(Contents()) + multiset{value}
    {
      PushedHeap(comp, heap, value);
      heap := heap + [value];
      HeapifyUp(|heap| - 1);
    }

    // Takes out a top element; the source throws on an empty queue.
    method Pop() returns (r: Result<()>)
      requires Valid()
      modifies this`heap
      ensures Valid()
      ensures r == HeapIsEmpty <==> old(Contents()) == multiset{}
      ensures r == HeapIsEmpty ==> Contents() == old(Contents())
      ensures r != HeapIsEmpty ==> IsTop(comp, old(Contents()), old(heap)[0])
      ensures r != HeapIsEmpty ==> Contents() == old(Contents()) - multiset{old(heap)[0]}
    {
      if Empty() { return HeapIsEmpty; }
      FirstIsTopOf(comp, heap);
      PoppedHeap(comp, heap);
      heap := heap[0 := heap[|heap| - 1]];
      heap := heap[..|heap| - 1];
      if !Empty() { HeapifyDown(0); }
      return Ok(());
    }

    method Top() returns (r: Result<T>)
      requires Valid()
      ensures r == HeapIsEmpty <==> Contents() == multiset{}
      ensures r != HeapIsEmpty ==> r.value == heap[0] && IsTop(comp, Contents(), r.value)
    {
      if Empty() { return HeapIsEmpty; }
      FirstIsTopOf(comp, heap);
      return Ok(heap[0]);
    }

    // Popping until the queue is empty yields everything that was stored, in order.
    method Drain() returns (out: seq<T>)
      requires Valid()
      modifies this`heap
      ensures Valid() && Contents() == multiset{}
      ensures multiset(out) == old(Contents()) && InOrder(comp, out)
    {
      out := [];
      while !Empty()
        invariant Valid() && multiset(out) + Contents() == old(Contents())
        invariant InOrder(comp, out) && forall x, y :: x in out && y in Contents() ==> !comp(x, y)
        decreases |heap|
      {
        var top := Top();
        ghost var before, n := Contents(), |heap|;
        var _ := Pop();
        assert before == Contents() + multiset{top.value};
        assert |heap| == |Contents()| && n == |before|;
        Append(comp, out, top.value, before);
        out := out + [top.value];
      }
    }
  }

  lemma LargestOfThree<T(!new)>(comp: (T, T) -> bool, h: seq<T>, i: int, largest: int)
    requires StrictWeakOrder(comp) && 0 <= i < |h| && HeapAbove(comp, h, i)
    requires var left, right := 2 * i + 1, 2 * i + 2;
      var l := if left < |h| && comp(h[i], h[left]) then left else i;
      largest == if right < |h| && comp(h[l], h[right]) then right else l
    ensures i <= largest < |h| && (largest != i ==> Parent(largest) == i && comp(h[i], h[largest]))
    ensures forall j {:trigger Above(comp, h, largest, j)} ::
      0 < j < |h| && Parent(j) == i ==> Above(comp, h, largest, j)
    ensures largest == i ==> Heap(comp, h)
  {
    forall j | 0 < j < |h| && Parent(j) == i ensures Above(comp, h, largest, j) {
      assert j == 2 * i + 1 || j == 2 * i + 2;
    }
    if largest == i {
      forall j | 0 < j < |h| ensures Above(comp, h, Parent(j), j) {
        if Parent(j) == i { assert Above(comp, h, largest, j); }
      }
    }
  }

  lemma PushedHeap<T>(comp: (T, T) -> bool, h: seq<T>, value: T)
    requires Heap(comp, h)
    ensures HeapBut(comp, h + [value], |h|) && Bridged(comp, h + [value], |h|)
    ensures multiset(h + [value]) == multiset(h) + multiset{value}
  {
    var u := h + [value];
    forall j | 0 < j < |u| && j != |h| ensures Above(comp, u, Parent(j), j) {
      assert Above(comp, h, Parent(j), j);
    }
  }

  lemma PoppedHeap<T>(comp: (T, T) -> bool, h: seq<T>)
    requires Heap(comp, h) && h != []
    ensures var u := h[0 := h[|h| - 1]][..|h| - 1];
      HeapAbove(comp, u, 0) && Bridged(comp, u, 0) && multiset(u) == multiset(h) - multiset{h[0]}
  {
    var n := |h| - 1;
    var u := h[0 := h[n]][..n];
    forall j | 0 < j < |u| && Parent(j) != 0 ensures Above(comp, u, Parent(j), j) {
      assert Above(comp, h, Parent(j), j);
    }
    if n > 0 {
      assert u == [h[n]] + h[1..n];
      assert h == [h[0]] + h[1..n] + [h[n]];
    } else {
      assert h == [h[0]] && u == [];
    }
  }

  lemma FirstIsTopOf<T(!new)>(comp: (T, T) -> bool, h: seq<T>)
    requires StrictWeakOrder(comp) && Heap(comp, h) && h != []
    ensures IsTop(comp, multiset(h), h[0])
  {
    forall y | y in multiset(h) ensures !comp(h[0], y) {
      var i :| 0 <= i < |h| && h[i] == y;
      FirstIsTop(comp, h, i);
    }
  }

  lemma Append<T>(comp: (T, T) -> bool, out: seq<T>, x: T, rest: multiset<T>)
    requires InOrder(comp, out) && IsTop(comp, rest, x) && forall a, b :: a in out && b in rest ==> !comp(a, b)
    ensures InOrder(comp, out + [x])
    ensures forall a, b :: a in out + [x] && b in rest ==> !comp(a, b)
  {
  }
}
