/** The indexed binary heap behind variable selection. */
module Heaps {
  import opened Sort

  type Less = (nat, nat) -> bool

  function Parent(i: nat): nat { if i == 0 then 0 else (i - 1) / 2 }
  function Left(i: nat): nat { 2 * i + 1 }
  function Right(i: nat): nat { 2 * (i + 1) }

  lemma Family(i: nat, j: nat)
    ensures Parent(Left(i)) == i && Parent(Right(i)) == i && Left(i) > i && Right(i) > i
    ensures j > 0 ==> Parent(j) < j && (Parent(j) == i <==> j == Left(i) || j == Right(i))
  {
  }

  // ---------- heap order ----------

  ghost predicate InOrder(h: seq<nat>, lt: Less, j: nat) { 0 < j < |h| ==> !lt(h[j], h[Parent(j)]) }

  /** Heap order between all nodes from k on and their children. */
  ghost predicate OrderedFrom(h: seq<nat>, lt: Less, k: nat) {
    forall j: nat :: Parent(j) >= k ==> InOrder(h, lt, j)
  }

  ghost predicate HeapOrder(h: seq<nat>, lt: Less) { OrderedFrom(h, lt, 0) }

  /** The children of i are in order with the parent of i. */
  ghost predicate Bridged(h: seq<nat>, lt: Less, i: nat) {
    forall j: nat :: 0 < j < |h| && Parent(j) == i ==> !lt(h[j], h[Parent(i)])
  }

  /** The same, except that node i may be out of order with its parent and its children. */
  ghost predicate OrderedBut(h: seq<nat>, lt: Less, k: nat, i: nat) {
    && i < |h| && (forall j: nat :: Parent(j) >= k && j != i && Parent(j) != i ==> InOrder(h, lt, j))
    && (i > 0 && Parent(i) >= k ==> Bridged(h, lt, i))
  }

  /** Node i is in order with its parent, as far as that counts. */
  ghost predicate AboveOk(h: seq<nat>, lt: Less, k: nat, i: nat) { i > 0 && Parent(i) >= k ==> InOrder(h, lt, i) }

  ghost predicate BelowOk(h: seq<nat>, lt: Less, i: nat)
  {
    forall j: nat :: j > 0 && Parent(j) == i ==> InOrder(h, lt, j)
  }

  function Swapped(h: seq<nat>, i: nat, j: nat): seq<nat>
    requires i < |h| && j < |h|
  {
    h[i := h[j]][j := h[i]]
  }

  lemma UpStep(h: seq<nat>, lt: Less, i: nat)
    requires StrictWeak(lt) && OrderedBut(h, lt, 0, i) && i > 0 && lt(h[i], h[Parent(i)])
    ensures var p := Parent(i); var h' := Swapped(h, i, p); OrderedBut(h', lt, 0, p) && BelowOk(h', lt, p)
  {
    hide StrictWeak;
    var p := Parent(i);
    var h' := Swapped(h, i, p);
    Asymmetry(lt, h[i], h[p]);
    forall j: nat | j != p && Parent(j) != p ensures InOrder(h', lt, j) {
      if 0 < j < |h| && Parent(j) != i { assert InOrder(h, lt, j); }
    }
    forall j: nat | 0 < j < |h'| && Parent(j) == p ensures InOrder(h', lt, j) && (p > 0 ==> !lt(h'[j], h'[Parent(p)])) {
      if p > 0 { assert InOrder(h, lt, p); }
      if j != i {
        assert InOrder(h, lt, j);
        NotLess(lt, h[j], h[p], h[i]);
        if p > 0 { NotLess(lt, h[j], h[p], h[Parent(p)]); }
      }
    }
  }

  lemma Asymmetry(lt: Less, x: nat, y: nat)
    requires StrictWeak(lt) && lt(x, y)
    ensures !lt(y, x)
  {
  }

  lemma NotLess(lt: Less, x: nat, y: nat, z: nat)
    requires StrictWeak(lt) && !lt(x, y) && !lt(y, z)
    ensures !lt(x, z)
  {
  }

  lemma DownStep(h: seq<nat>, lt: Less, k: nat, i: nat, c: nat)
    requires StrictWeak(lt) && OrderedBut(h, lt, k, i) && AboveOk(h, lt, k, i) && k <= i
    requires 0 < c < |h| && Parent(c) == i && lt(h[c], h[i])
    requires forall s :: 0 < s < |h| && Parent(s) == i ==> !lt(h[s], h[c])
    ensures var h' := Swapped(h, i, c); OrderedBut(h', lt, k, c) && AboveOk(h', lt, k, c)
  {
    var h' := Swapped(h, i, c);
    forall j: nat | Parent(j) >= k && j != c && Parent(j) != c ensures InOrder(h', lt, j) {
      if 0 < j < |h| && Parent(j) != i && j != i { assert InOrder(h, lt, j); }
    }
    forall j: nat | 0 < j < |h'| && Parent(j) == c ensures !lt(h'[j], h'[i]) {
      assert InOrder(h, lt, j);
    }
  }

  lemma Settled(h: seq<nat>, lt: Less, k: nat, i: nat)
    requires OrderedBut(h, lt, k, i) && AboveOk(h, lt, k, i) && BelowOk(h, lt, i)
    ensures OrderedFrom(h, lt, k)
  {
    forall j: nat | Parent(j) >= k ensures InOrder(h, lt, j) {
      if j > 0 && j != i && Parent(j) != i { assert InOrder(h, lt, j); }
    }
  }

  /** In a heap, the root is a minimum. */
  lemma {:induction false} RootIsMinimum(h: seq<nat>, lt: Less, j: nat)
    requires StrictWeak(lt) && HeapOrder(h, lt) && j < |h|
    ensures !lt(h[j], h[0])
    decreases j
  {
    if j > 0 {
      RootIsMinimum(h, lt, Parent(j));
      assert InOrder(h, lt, j);
    }
  }

  /** The keys of all but n are as before. */
  ghost predicate OnlyMoved(lt: Less, lt': Less, n: nat)
  {
    forall x, y :: x != n && y != n ==> (lt(x, y) <==> lt'(x, y))
  }

  /** The key of n has been decreased: n is below whatever it was below. */
  ghost predicate Lowered(lt: Less, lt': Less, n: nat) {
    OnlyMoved(lt, lt', n) && forall y :: (lt(n, y) ==> lt'(n, y)) && (lt'(y, n) ==> lt(y, n))
  }

  ghost predicate Raised(lt: Less, lt': Less, n: nat) {
    OnlyMoved(lt, lt', n) && forall y :: (lt'(n, y) ==> lt(n, y)) && (lt(y, n) ==> lt'(y, n))
  }

  /** After a change of one key, the heap is in order but for that node. */
  lemma KeyChange(h: seq<nat>, lt: Less, lt': Less, i: nat)
    requires StrictWeak(lt) && StrictWeak(lt') && HeapOrder(h, lt) && i < |h| && OnlyMoved(lt, lt', h[i])
    requires forall a, b :: 0 <= a < b < |h| ==> h[a] != h[b]
    ensures OrderedBut(h, lt', 0, i)
    ensures Lowered(lt, lt', h[i]) ==> BelowOk(h, lt', i)
    ensures Raised(lt, lt', h[i]) ==> AboveOk(h, lt', 0, i)
  {
    forall j: nat | j != i && Parent(j) != i ensures InOrder(h, lt', j) {
      assert InOrder(h, lt, j);
    }
    if i > 0 {
      forall j: nat | 0 < j < |h| && Parent(j) == i ensures !lt'(h[j], h[Parent(i)]) {
        assert InOrder(h, lt, j) && InOrder(h, lt, i);
      }
    }
    forall j: nat | j > 0 && Parent(j) == i && Lowered(lt, lt', h[i]) ensures InOrder(h, lt', j) {
      assert InOrder(h, lt, j);
    }
    assert InOrder(h, lt, i);
  }

  // ---------- positions ----------

  /** indices is the inverse of h, and negative elsewhere. */
  ghost predicate IndexOk(h: seq<nat>, indices: seq<int>) {
    && (forall i :: 0 <= i < |h| ==> h[i] < |indices| && indices[h[i]] == i)
    && (forall n :: 0 <= n < |indices| && indices[n] >= 0 ==> indices[n] < |h| && h[indices[n]] == n)
  }

  /** The same, but for the entry of the element at i. */
  ghost predicate IndexBut(h: seq<nat>, indices: seq<int>, i: nat) {
    && i < |h| && h[i] < |indices|
    && (forall j :: 0 <= j < |h| && j != i ==> h[j] < |indices| && indices[h[j]] == j && h[j] != h[i])
    && (forall n :: 0 <= n < |indices| && indices[n] >= 0 && n != h[i] ==> indices[n] < |h| && h[indices[n]] == n)
  }

  lemma IndexOkBut(h: seq<nat>, indices: seq<int>, i: nat)
    requires i < |h|
    ensures IndexOk(h, indices) ==> IndexBut(h, indices, i)
    ensures IndexBut(h, indices, i) ==> IndexOk(h, indices[h[i] := i])
  {
  }

  lemma SwapIndex(h: seq<nat>, indices: seq<int>, i: nat, j: nat)
    requires IndexBut(h, indices, i) && j < |h| && j != i
    ensures h[j] < |indices| && IndexBut(Swapped(h, i, j), indices[h[j] := i], j)
  {
  }

  lemma SwapElements(h: seq<nat>, i: nat, j: nat)
    requires i < |h| && j < |h|
    ensures multiset(Swapped(h, i, j)) == multiset(h)
  {
    assert h[..] == h;
    SwapRearranges(h, 0, |h|, i, j);
    var h' := Swapped(h, i, j);
    assert h[0..|h|] == h && h'[0..|h|] == h';
  }

  ghost predicate SameElements(g: seq<nat>, h: seq<nat>) { |g| == |h| && multiset(g) == multiset(h) }

  lemma SameElementsHere(h: seq<nat>)
    ensures SameElements(h, h)
  {
  }

  /** The element at j moves to i, and the hole with x from i to j: in effect a swap. */
  lemma MoveHole(heap: seq<nat>, h: seq<nat>, h0: seq<nat>, indices: seq<int>, i: nat, j: nat, x: nat)
    requires i < |heap| && j < |heap| && i != j && h == heap[i := x] && IndexBut(h, indices, i) && SameElements(h, h0)
    ensures h[j] == heap[j] < |indices| && h[i] == x && |h| == |heap|
    ensures var h' := Swapped(h, i, j); h' == heap[i := heap[j]][j := x] && SameElements(h', h0) && |h'| == |h|
    ensures IndexBut(Swapped(h, i, j), indices[heap[j] := i], j)
  {
    SwapIndex(h, indices, i, j);
    SwapElements(h, i, j);
  }

  lemma FillHole(heap: seq<nat>, h: seq<nat>, indices: seq<int>, i: nat, x: nat)
    requires i < |heap| && h == heap[i := x] && IndexBut(h, indices, i)
    ensures x < |indices| && h[i] == x && IndexOk(h, indices[x := i])
  {
  }

  lemma IndexedOnce(h: seq<nat>, indices: seq<int>)
    requires IndexOk(h, indices)
    ensures forall a, b :: 0 <= a < b < |h| ==> h[a] != h[b]
  {
  }

  class Heap {
    var lt: Less
    var heap: seq<nat>
    var indices: seq<int>

    constructor (lt: Less)
      ensures this.lt == lt && heap == [] && indices == []
    {
      this.lt, heap, indices := lt, [], [];
    }

    ghost predicate Valid()
      reads this
    {
      StrictWeak(lt) && IndexOk(heap, indices) && HeapOrder(heap, lt)
    }

    predicate InHeap(n: nat)
      reads this
    {
      n < |indices| && indices[n] >= 0
    }

    method PercolateUp(i0: nat) returns (ghost i: nat)
      requires StrictWeak(lt) && IndexOk(heap, indices) && OrderedBut(heap, lt, 0, i0)
      modifies `heap, `indices
      ensures IndexOk(heap, indices) && SameElements(heap, old(heap)) && |indices| == |old(indices)|
      ensures OrderedBut(heap, lt, 0, i) && AboveOk(heap, lt, 0, i) && heap[i] == old(heap)[i0]
      ensures old(BelowOk(heap, lt, i0)) ==> HeapOrder(heap, lt)
    {
      IndexOkBut(heap, indices, i0);
      SameElementsHere(heap);
      ghost var h := heap;
      var j := i0;
      var x := heap[j];
      var p := Parent(j);
      assert j < |h|;
      hide StrictWeak, OrderedBut, IndexOk, IndexBut, BelowOk, AboveOk, SameElements, OrderedFrom, Swapped;
      while j != 0 && lt(x, heap[p])
        invariant 0 <= j < |h| == |heap| && h == heap[j := x] && p == Parent(j) < |h|
        invariant IndexBut(h, indices, j) && SameElements(h, old(heap)) && |indices| == |old(indices)|
        invariant OrderedBut(h, lt, 0, j) && (old(BelowOk(heap, lt, i0)) ==> BelowOk(h, lt, j))
        decreases j
      {
        Family(0, j);
        MoveHole(heap, h, old(heap), indices, j, p, x);
        UpStep(h, lt, j);
        h := Swapped(h, j, p);
        heap := heap[j := heap[p]];
        indices := indices[heap[j] := j];
        j, p := p, Parent(p);
      }
      FillHole(heap, h, indices, j, x);
      NotAbove(h, lt, j);
      if old(BelowOk(heap, lt, i0)) { Settled(h, lt, 0, j); }
      heap := heap[j := x];
      indices := indices[x := j];
      i := j;
    }

    static lemma NotAbove(h: seq<nat>, lt: Less, j: nat)
      requires j < |h| && (j == 0 || !lt(h[j], h[Parent(j)]))
      ensures AboveOk(h, lt, 0, j)
    {
    }

    method PercolateDown(i0: nat, ghost k: nat)
      requires StrictWeak(lt) && IndexOk(heap, indices)
      requires OrderedBut(heap, lt, k, i0) && AboveOk(heap, lt, k, i0) && k <= i0
      modifies `heap, `indices
      ensures IndexOk(heap, indices) && SameElements(heap, old(heap)) && |indices| == |old(indices)|
      ensures OrderedFrom(heap, lt, k)
    {
      StartSifting(heap, indices, lt, k, i0);
      hide *;
      var j := i0;
      var x := heap[j];
      while Left(j) < |heap|
        invariant j < |heap| == |old(heap)| && |indices| == |old(indices)|
        invariant Sifting(heap, indices, old(heap), lt, k, j, x)
        decreases |heap| - j
      {
        var child := if Right(j) < |heap| && lt(heap[Right(j)], heap[Left(j)]) then Right(j) else Left(j);
        SiftStep(heap, indices, old(heap), lt, k, j, x, child);
        if !lt(heap[child], x) { break; }
        heap := heap[j := heap[child]];
        indices := indices[heap[j] := j];
        j := child;
      }
      SiftEnd(heap, indices, old(heap), lt, k, j, x);
      heap := heap[j := x];
      indices := indices[x := j];
    }

    /** The hole at j, which belongs to x, is the only place where heap order may fail, and only below. */
    static ghost predicate Sifting(heap: seq<nat>, indices: seq<int>, h0: seq<nat>, lt: Less, k: nat, j: nat, x: nat) {
      && j < |heap| && k <= j && StrictWeak(lt) && IndexBut(heap[j := x], indices, j) && SameElements(heap[j := x], h0)
      && OrderedBut(heap[j := x], lt, k, j) && AboveOk(heap[j := x], lt, k, j)
    }

    static lemma StartSifting(heap: seq<nat>, indices: seq<int>, lt: Less, k: nat, j: nat)
      requires StrictWeak(lt) && IndexOk(heap, indices)
      requires OrderedBut(heap, lt, k, j) && AboveOk(heap, lt, k, j) && k <= j
      ensures j < |heap| && Sifting(heap, indices, heap, lt, k, j, heap[j])
    {
      assert j < |heap| && heap[j := heap[j]] == heap;
      IndexOkBut(heap, indices, j);
      SameElementsHere(heap);
    }

    static lemma SiftStep(heap: seq<nat>, indices: seq<int>, h0: seq<nat>, lt: Less, k: nat, j: nat, x: nat, child: nat)
      requires Sifting(heap, indices, h0, lt, k, j, x) && Left(j) < |heap|
      requires child == if Right(j) < |heap| && lt(heap[Right(j)], heap[Left(j)]) then Right(j) else Left(j)
      ensures j < child < |heap| && heap[child] < |indices|
      ensures if lt(heap[child], x) then Sifting(heap[j := heap[child]], indices[heap[child] := j], h0, lt, k, child, x)
              else BelowOk(heap[j := x], lt, j)
    {
      hide StrictWeak, OrderedBut, AboveOk, BelowOk, IndexBut, SameElements, Left, Right;
      DownMove(heap, heap[j := x], h0, indices, lt, k, j, child, x);
    }

    static lemma SiftEnd(heap: seq<nat>, indices: seq<int>, h0: seq<nat>, lt: Less, k: nat, j: nat, x: nat)
      requires Sifting(heap, indices, h0, lt, k, j, x) && (Left(j) < |heap| ==> BelowOk(heap[j := x], lt, j))
      ensures x < |indices| && IndexOk(heap[j := x], indices[x := j]) && SameElements(heap[j := x], h0)
      ensures OrderedFrom(heap[j := x], lt, k)
    {
      hide StrictWeak, OrderedBut, AboveOk, BelowOk, IndexBut, IndexOk, SameElements, OrderedFrom, Left, Right;
      NoSmallerChild(heap[j := x], lt, j);
      Settled(heap[j := x], lt, k, j);
      FillHole(heap, heap[j := x], indices, j, x);
    }

    static lemma SmallerChild(heap: seq<nat>, h: seq<nat>, x: nat, lt: Less, j: nat, child: nat)
      requires StrictWeak(lt) && Left(j) < |heap| && h == heap[j := x]
      requires child == if Right(j) < |heap| && lt(heap[Right(j)], heap[Left(j)]) then Right(j) else Left(j)
      ensures j < child < |h| && Parent(child) == j && h[child] == heap[child]
      ensures forall s: nat :: 0 < s < |h| && Parent(s) == j ==> !lt(h[s], h[child])
      ensures !lt(h[child], h[j]) ==> BelowOk(h, lt, j)
    {
      Family(j, 0);
      forall s: nat | 0 < s < |h| && Parent(s) == j ensures !lt(h[s], h[child]) {
        Family(j, s);
      }
    }

    /** One step down, or the end of it. */
    static lemma DownMove(heap: seq<nat>, h: seq<nat>, h0: seq<nat>, indices: seq<int>, lt: Less, k: nat, j: nat,
                          child: nat, x: nat)
      requires StrictWeak(lt) && Left(j) < |heap| && h == heap[j := x] && k <= j
      requires IndexBut(h, indices, j) && SameElements(h, h0) && OrderedBut(h, lt, k, j) && AboveOk(h, lt, k, j)
      requires child == if Right(j) < |heap| && lt(heap[Right(j)], heap[Left(j)]) then Right(j) else Left(j)
      ensures j < child < |heap| && heap[child] < |indices|
      ensures !lt(heap[child], x) ==> BelowOk(h, lt, j)
      ensures lt(heap[child], x) ==>
        var h' := heap[j := heap[child]][child := x];
        && IndexBut(h', indices[heap[child] := j], child) && SameElements(h', h0)
        && OrderedBut(h', lt, k, child) && AboveOk(h', lt, k, child)
    {
      SmallerChild(heap, h, x, lt, j, child);
      hide OrderedBut, AboveOk, BelowOk, IndexBut, SameElements, StrictWeak, Swapped;
      MoveHole(heap, h, h0, indices, j, child, x);
      if lt(heap[child], x) { DownStep(h, lt, k, j, child); }
    }

    static lemma NoSmallerChild(h: seq<nat>, lt: Less, j: nat)
      ensures Left(j) >= |h| ==> BelowOk(h, lt, j)
    {
    }

    /** The key of n has been decreased. */
    method Decrease(n: nat, ghost was: Less)
      requires StrictWeak(lt) && StrictWeak(was) && IndexOk(heap, indices)
      requires HeapOrder(heap, was) && InHeap(n) && Lowered(was, lt, n)
      modifies `heap, `indices
      ensures Valid() && multiset(heap) == multiset(old(heap)) && |indices| == |old(indices)|
    {
      IndexedOnce(heap, indices);
      KeyChange(heap, was, lt, indices[n]);
      var i := PercolateUp(indices[n]);
    }

    /** The key of n has been increased. */
    method Increase(n: nat, ghost was: Less)
      requires StrictWeak(lt) && StrictWeak(was) && IndexOk(heap, indices)
      requires HeapOrder(heap, was) && InHeap(n) && Raised(was, lt, n)
      modifies `heap, `indices
      ensures Valid() && multiset(heap) == multiset(old(heap)) && |indices| == |old(indices)|
    {
      IndexedOnce(heap, indices);
      KeyChange(heap, was, lt, indices[n]);
      PercolateDown(indices[n], 0);
    }

    method Insert(n: nat)
      requires Valid() && !InHeap(n)
      modifies `heap, `indices
      ensures Valid() && multiset(heap) == multiset(old(heap)) + multiset{n}
      ensures |indices| == if n < |old(indices)| then |old(indices)| else n + 1
    {
      if n >= |indices| { indices := indices + seq(n + 1 - |indices|, _ => -1); }
      indices := indices[n := |heap|];
      Appended(heap, lt, n);
      heap := heap + [n];
      var i := PercolateUp(indices[n]);
    }

    static lemma Appended(h: seq<nat>, lt: Less, n: nat)
      requires HeapOrder(h, lt)
      ensures OrderedBut(h + [n], lt, 0, |h|) && BelowOk(h + [n], lt, |h|)
    {
      forall j: nat | j != |h| ensures InOrder(h + [n], lt, j) {
        assert InOrder(h, lt, j);
      }
      forall j: nat | j > 0 && Parent(j) == |h| ensures j > |h| {
        Family(|h|, j);
      }
    }

    /** The key of n may have changed in any way, or n may be new. */
    method Update(n: nat, ghost was: Less)
      requires StrictWeak(lt) && StrictWeak(was) && IndexOk(heap, indices) && HeapOrder(heap, was)
      requires if InHeap(n) then OnlyMoved(was, lt, n) else was == lt
      modifies `heap, `indices
      ensures Valid() && multiset(heap) == multiset(old(heap)) + if old(InHeap(n)) then multiset{} else multiset{n}
    {
      if !InHeap(n) {
        Insert(n);
      } else {
        IndexedOnce(heap, indices);
        KeyChange(heap, was, lt, indices[n]);
        var i := PercolateUp(indices[n]);
        assert indices[n] == i;
        PercolateDown(indices[n], 0);
      }
    }

    method RemoveMin() returns (x: nat)
      requires Valid() && heap != []
      modifies `heap, `indices
      ensures Valid() && multiset(heap) == multiset(old(heap)) - multiset{x} && x in old(heap)
      ensures forall y :: y in old(heap) ==> !lt(y, x)
      ensures !InHeap(x)
    {
      ghost var h := heap;
      RootIsLeast(h, lt);
      IndexedOnce(h, indices);
      RemovedRoot(h, lt);
      RemovedElements(h);
      RemovedIndex(h, indices);
      hide StrictWeak, OrderedBut, OrderedFrom, IndexOk, AboveOk;
      x := heap[0];
      var last := |heap| - 1;
      heap := heap[0 := heap[last]];
      indices := indices[heap[0] := 0];
      indices := indices[x := -1];
      heap := heap[..last];
      if |heap| > 1 { PercolateDown(0, 0); }
      NotThere(h, heap, indices, x);
    }

    static lemma RootIsLeast(h: seq<nat>, lt: Less)
      requires StrictWeak(lt) && HeapOrder(h, lt) && |h| > 0
      ensures forall y :: y in h ==> !lt(y, h[0])
    {
      forall y | y in h ensures !lt(y, h[0]) {
        var j :| 0 <= j < |h| && h[j] == y;
        RootIsMinimum(h, lt, j);
      }
    }

    static lemma RemovedIndex(h: seq<nat>, indices: seq<int>)
      requires IndexOk(h, indices) && |h| > 0
      ensures h[0] < |indices| && h[|h| - 1] < |indices|
      ensures IndexOk(h[0 := h[|h| - 1]][..|h| - 1], indices[h[|h| - 1] := 0][h[0] := -1])
    {
    }

    static lemma NotThere(h: seq<nat>, h': seq<nat>, indices': seq<int>, x: nat)
      requires IndexOk(h', indices') && multiset(h') == multiset(h) - multiset{x}
      requires forall a, b :: 0 <= a < b < |h| ==> h[a] != h[b]
      ensures x < |indices'| ==> indices'[x] < 0
    {
      if x in h' {
        assert x in multiset(h');
        Twice(h, x);
        assert false;
      }
    }

    static lemma {:induction false} Twice(h: seq<nat>, x: nat)
      requires forall a, b :: 0 <= a < b < |h| ==> h[a] != h[b]
      ensures multiset(h)[x] <= 1
    {
      if h != [] {
        var last := |h| - 1;
        Twice(h[..last], x);
        assert h == h[..last] + [h[last]];
        if h[last] == x { assert x !in h[..last]; }
      }
    }

    static lemma RemovedRoot(h: seq<nat>, lt: Less)
      requires HeapOrder(h, lt) && |h| > 0
      ensures var h' := h[0 := h[|h| - 1]][..|h| - 1];
        (|h'| > 0 ==> OrderedBut(h', lt, 0, 0) && AboveOk(h', lt, 0, 0)) && (|h'| <= 1 ==> HeapOrder(h', lt))
    {
      var h' := h[0 := h[|h| - 1]][..|h| - 1];
      forall j: nat | j != 0 && Parent(j) != 0 ensures InOrder(h', lt, j) {
        assert InOrder(h, lt, j);
      }
    }

    static lemma RemovedElements(h: seq<nat>)
      requires |h| > 0
      ensures multiset(h[0 := h[|h| - 1]][..|h| - 1]) == multiset(h) - multiset{h[0]}
    {
      var last := |h| - 1;
      assert h == h[..last] + [h[last]];
      if last > 0 {
        var g := h[..last];
        assert g == [h[0]] + g[1..];
        assert h[0 := h[last]][..last] == [h[last]] + g[1..];
      }
    }

    /** clear. */
    method Clear()
      requires IndexOk(heap, indices)
      modifies `heap, `indices
      ensures heap == [] && |indices| == |old(indices)| && forall n :: 0 <= n < |indices| ==> indices[n] < 0
    {
      var i := 0;
      while i < |heap|
        invariant 0 <= i <= |heap| && |indices| == |old(indices)| && heap == old(heap)
        invariant forall n :: 0 <= n < |indices| ==>
          indices[n] == if 0 <= old(indices)[n] < i then -1 else old(indices)[n]
      {
        indices := indices[heap[i] := -1];
        i := i + 1;
      }
      heap := [];
    }

    /** build: the heap of the given elements, from scratch. */
    method Build(ns: seq<nat>)
      requires StrictWeak(lt) && IndexOk(heap, indices)
      requires (forall i :: 0 <= i < |ns| ==> ns[i] < |indices|) && forall i, j :: 0 <= i < j < |ns| ==> ns[i] != ns[j]
      modifies `heap, `indices
      ensures Valid() && multiset(heap) == multiset(ns) && |indices| == |old(indices)|
    {
      Clear();
      var i := 0;
      while i < |ns|
        invariant 0 <= i <= |ns| && heap == ns[..i] && IndexOk(heap, indices) && |indices| == |old(indices)|
      {
        assert ns[i] !in ns[..i];
        indices := indices[ns[i] := i];
        heap := heap + [ns[i]];
        i := i + 1;
      }
      assert ns[..i] == ns;
      i := |heap| / 2;
      LeavesAreOrdered(heap, lt);
      while i > 0
        invariant 0 <= i <= |heap| / 2 && IndexOk(heap, indices)
        invariant OrderedFrom(heap, lt, i) && multiset(heap) == multiset(ns)
        invariant |indices| == |old(indices)| && |heap| == |ns|
      {
        i := i - 1;
        OneMoreNode(heap, lt, i);
        PercolateDown(i, i);
        SameSize(heap, ns);
      }
    }

    static lemma SameSize(h: seq<nat>, g: seq<nat>)
      requires multiset(h) == multiset(g)
      ensures |h| == |g|
    {
      assert |multiset(h)| == |h| && |multiset(g)| == |g|;
    }

    static lemma LeavesAreOrdered(h: seq<nat>, lt: Less)
      ensures OrderedFrom(h, lt, |h| / 2)
    {
    }

    static lemma OneMoreNode(h: seq<nat>, lt: Less, i: nat)
      requires OrderedFrom(h, lt, i + 1) && i < |h|
      ensures OrderedBut(h, lt, i, i) && AboveOk(h, lt, i, i)
    {
      forall j: nat | Parent(j) >= i && j != i && Parent(j) != i ensures InOrder(h, lt, j) {
        assert Parent(j) >= i + 1;
      }
      Family(i, i);
    }
  }
}
