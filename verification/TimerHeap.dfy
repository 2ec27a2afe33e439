/** The scheduler's priority queue: a binary min-heap in a vector, ordered by (deadline, id). */
module TimerHeap {
  import opened Common

  datatype HeapItem = HeapItem(deadline: int, id: nat, generation: nat)

  /** The order of the heap: the generation does not take part. */
  predicate Before(a: HeapItem, b: HeapItem) {
    a.deadline < b.deadline || (a.deadline == b.deadline && a.id < b.id)
  }

  function Parent(j: nat): nat
    requires j > 0
  {
    (j - 1) / 2
  }

  predicate Ordered(h: seq<HeapItem>, j: nat)
    requires 0 < j < |h|
  {
    !Before(h[j], h[Parent(j)])
  }

  predicate IsHeap(h: seq<HeapItem>) {
    forall j: nat :: 0 < j < |h| ==> Ordered(h, j)
  }

  /** The top of a heap is its minimum. */
  lemma {:induction false} TopIsLeast(h: seq<HeapItem>, j: nat)
    requires IsHeap(h) && j < |h|
    ensures !Before(h[j], h[0])
  {
    if j > 0 {
      assert Ordered(h, j);
      TopIsLeast(h, Parent(j));
    }
  }

  /** The children of `i` are in order with the parent of `i`. */
  ghost predicate Bridged(h: seq<HeapItem>, i: nat) {
    0 < i < |h| ==> forall j: nat :: 0 < j < |h| && Parent(j) == i ==> !Before(h[j], h[Parent(i)])
  }

  ghost predicate OrderedExcept(h: seq<HeapItem>, i: nat) {
    forall j: nat :: 0 < j < |h| && j != i ==> Ordered(h, j)
  }

  lemma SwapKeeps(h: seq<HeapItem>, i: nat, j: nat)
    requires i < |h| && j < |h|
    ensures multiset(h[i := h[j]][j := h[i]]) == multiset(h)
  {
  }

  method Push(h: seq<HeapItem>, x: HeapItem) returns (r: seq<HeapItem>)
    requires IsHeap(h)
    ensures IsHeap(r) && multiset(r) == multiset(h) + multiset{x}
  {
    r := h + [x];
    var i: nat := |h|;
    assert forall j: nat :: 0 < j < |h| ==> Ordered(h, j) ==> Ordered(r, j);
    while i > 0 && Before(r[i], r[Parent(i)])
      invariant i < |r| == |h| + 1 && multiset(r) == multiset(h) + multiset{x}
      invariant OrderedExcept(r, i) && Bridged(r, i)
    {
      var p := Parent(i);
      SwapKeeps(r, i, p);
      SiftUpStep(r, i);
      r := r[i := r[p]][p := r[i]];
      i := p;
    }
    if i > 0 { assert Ordered(r, i); }
  }

  lemma SiftUpStep(h: seq<HeapItem>, i: nat)
    requires 0 < i < |h| && OrderedExcept(h, i) && Bridged(h, i) && Before(h[i], h[Parent(i)])
    ensures var h' := h[i := h[Parent(i)]][Parent(i) := h[i]];
            OrderedExcept(h', Parent(i)) && Bridged(h', Parent(i))
  {
    var p := Parent(i);
    var h' := h[i := h[p]][p := h[i]];
    forall j: nat | 0 < j < |h'| && j != p ensures Ordered(h', j) {
      if j != i { assert Ordered(h, j); }
    }
    forall j: nat | 0 < j < |h'| && 0 < p && Parent(j) == p ensures !Before(h'[j], h'[Parent(p)]) {
      assert Ordered(h, p);
      if j != i { assert Ordered(h, j); }
    }
  }

  /** Removing the top: the last item takes its place and sinks below its smaller child. */
  method Pop(h: seq<HeapItem>) returns (r: seq<HeapItem>)
    requires IsHeap(h) && h != []
    ensures IsHeap(r) && multiset(r) == multiset(h) - multiset{h[0]}
  {
    var n := |h| - 1;
    assert h == h[..n] + [h[n]];
    if n == 0 {
      return [];
    }
    r := h[..n][0 := h[n]];
    forall j: nat | 0 < j < n && Parent(j) != 0 ensures Ordered(r, j) {
      assert Ordered(h, j);
    }
    r := SiftDown(r);
  }

  /** Everything but the children of `i` is in order. */
  ghost predicate OrderedBelow(h: seq<HeapItem>, i: nat) {
    forall j: nat :: 0 < j < |h| && Parent(j) != i ==> Ordered(h, j)
  }

  method SiftDown(h: seq<HeapItem>) returns (r: seq<HeapItem>)
    requires h != [] && OrderedBelow(h, 0)
    ensures IsHeap(r) && multiset(r) == multiset(h)
  {
    r := h;
    var i: nat := 0;
    while true
      invariant i < |r| == |h| && multiset(r) == multiset(h)
      invariant OrderedBelow(r, i) && Bridged(r, i)
      decreases |h| - i
    {
      var c := SmallerChild(r, i);
      if c == |r| || !Before(r[c], r[i]) {
        break;
      }
      SwapKeeps(r, i, c);
      SiftDownStep(r, i, c);
      r := r[i := r[c]][c := r[i]];
      i := c;
    }
    forall j: nat | 0 < j < |r| ensures Ordered(r, j) {}
  }

  /** The child of `i` that comes first, or |h| for a leaf. */
  function SmallerChild(h: seq<HeapItem>, i: nat): (c: nat)
    ensures c == |h| ==> forall j: nat :: 0 < j < |h| ==> Parent(j) != i
    ensures c != |h| ==> i < c < |h| && Parent(c) == i
    ensures c != |h| ==> forall j: nat :: 0 < j < |h| && Parent(j) == i ==> !Before(h[j], h[c])
  {
    var c := 2 * i + 1;
    assert forall j: nat :: 0 < j && Parent(j) == i ==> j == c || j == c + 1;
    if c >= |h| then |h|
    else if c + 1 < |h| && Before(h[c + 1], h[c]) then c + 1
    else c
  }

  lemma SiftDownStep(h: seq<HeapItem>, i: nat, c: nat)
    requires i < c < |h| && Parent(c) == i && Before(h[c], h[i])
    requires forall j: nat :: 0 < j < |h| && Parent(j) == i ==> !Before(h[j], h[c])
    requires OrderedBelow(h, i)
    requires Bridged(h, i)
    ensures var h' := h[i := h[c]][c := h[i]];
            OrderedBelow(h', c) && Bridged(h', c)
  {
    var h' := h[i := h[c]][c := h[i]];
    forall j: nat | 0 < j < |h'| && Parent(j) != c ensures Ordered(h', j) {
      if Parent(j) != i { assert Ordered(h, j); }
    }
    forall j: nat | 0 < j < |h'| && Parent(j) == c ensures !Before(h'[j], h'[i]) {
      assert Ordered(h, j);
    }
  }
}
