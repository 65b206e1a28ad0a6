/** Go's `container/heap`, as the order book and the algo scheduler use it: a binary heap laid out in
    a slice, with sift-up, sift-down, insertion, removal of the root and removal at any index.
    `Less(i, j)` is `key(h[i]) < key(h[j])`; bids use the negated price as their key. */
module ContainerHeap {

  function Parent(k: nat): (p: nat)
    requires k > 0
    ensures p < k
  {
    (k - 1) / 2
  }

  /** Slot `k` is not smaller than its parent. */
  predicate Ordered<T>(h: seq<T>, key: T -> int, k: nat) {
    0 < k < |h| ==> key(h[Parent(k)]) <= key(h[k])
  }

  predicate IsHeapUpTo<T>(h: seq<T>, key: T -> int, n: nat) {
    forall k: nat | k < n :: Ordered(h, key, k)
  }

  predicate IsHeap<T>(h: seq<T>, key: T -> int) {
    IsHeapUpTo(h, key, |h|)
  }

  /** Heap order on the first `n` slots except around slot `i`: neither `i` against its parent nor the
      children of `i` against `i` is promised, but the parent of `i` is not larger than those children. */
  predicate HeapAround<T>(h: seq<T>, key: T -> int, n: nat, i: nat)
    requires n <= |h|
  {
    && (forall k: nat | k < n && k != i && (k > 0 ==> Parent(k) != i) :: Ordered(h, key, k))
    && (forall k: nat | 0 < k < n && Parent(k) == i && i > 0 :: key(h[Parent(i)]) <= key(h[k]))
  }

  predicate ChildrenOk<T>(h: seq<T>, key: T -> int, n: nat, i: nat) {
    forall k: nat | 0 < k < n && Parent(k) == i :: Ordered(h, key, k)
  }

  function Swapped<T>(h: seq<T>, i: nat, j: nat): (r: seq<T>)
    requires i < |h| && j < |h|
    ensures |r| == |h| && multiset(r) == multiset(h)
    ensures r[i] == h[j] && r[j] == h[i]
    ensures forall k | 0 <= k < |h| && k != i && k != j :: r[k] == h[k]
  {
    h[i := h[j]][j := h[i]]
  }

  lemma UpStep<T>(h: seq<T>, key: T -> int, j: nat)
    requires 0 < j < |h| && HeapAround(h, key, |h|, j) && ChildrenOk(h, key, |h|, j)
    requires key(h[j]) < key(h[Parent(j)])
    ensures HeapAround(Swapped(h, Parent(j), j), key, |h|, Parent(j))
    ensures ChildrenOk(Swapped(h, Parent(j), j), key, |h|, Parent(j))
  {
    var i := Parent(j);
    var r := Swapped(h, i, j);
    assert i > 0 ==> Ordered(h, key, i);
    forall k: nat | 0 < k < |h|
      ensures Parent(k) == i ==> Ordered(r, key, k)
      ensures k != i && Parent(k) != i ==> Ordered(r, key, k)
      ensures Parent(k) == i && i > 0 ==> key(r[Parent(i)]) <= key(r[k])
    {
      assert Ordered(h, key, k) || k == j;
    }
  }

  lemma DownStep<T>(h: seq<T>, key: T -> int, n: nat, i: nat, j: nat)
    requires 0 < j < n <= |h| && Parent(j) == i && HeapAround(h, key, n, i)
    requires forall k: nat | 0 < k < n && Parent(k) == i :: key(h[j]) <= key(h[k])
    requires key(h[j]) < key(h[i])
    ensures HeapAround(Swapped(h, i, j), key, n, j)
    ensures Ordered(Swapped(h, i, j), key, j)
  {
    var r := Swapped(h, i, j);
    forall k: nat | 0 < k < n
      ensures k != j && Parent(k) != j ==> Ordered(r, key, k)
      ensures Parent(k) == j ==> key(r[Parent(j)]) <= key(r[k])
    {
      assert Ordered(h, key, k) || k == i || Parent(k) == i;
    }
  }

  /** The root of a heap is an extremum of the whole slice. */
  lemma {:induction false} RootIsLeast<T>(h: seq<T>, key: T -> int, k: nat)
    requires IsHeap(h, key) && k < |h|
    ensures key(h[0]) <= key(h[k])
  {
    if k > 0 {
      assert Ordered(h, key, k);
      RootIsLeast(h, key, (k - 1) / 2);
    }
  }

  method Up<T>(h0: seq<T>, key: T -> int, j0: nat) returns (h: seq<T>)
    requires j0 < |h0|
    requires HeapAround(h0, key, |h0|, j0) && ChildrenOk(h0, key, |h0|, j0)
    ensures IsHeap(h, key)
    ensures multiset(h) == multiset(h0) && |h| == |h0|
  {
    h := h0;
    var j := j0;
    while j > 0 && key(h[j]) < key(h[Parent(j)])
      invariant 0 <= j < |h| == |h0|
      invariant multiset(h) == multiset(h0)
      invariant HeapAround(h, key, |h|, j) && ChildrenOk(h, key, |h|, j)
    {
      UpStep(h, key, j);
      h := Swapped(h, Parent(j), j);
      j := Parent(j);
    }
  }

  function SmallerChild<T>(h: seq<T>, key: T -> int, n: nat, i: nat): (j: nat)
    requires 2 * i + 1 < n <= |h|
    ensures i < j < n && Parent(j) == i
    ensures forall k: nat | 0 < k < n && Parent(k) == i :: key(h[j]) <= key(h[k])
  {
    if 2 * i + 2 < n && key(h[2 * i + 2]) < key(h[2 * i + 1]) then 2 * i + 2 else 2 * i + 1
  }

  method Down<T>(h0: seq<T>, key: T -> int, i0: nat, n: nat) returns (h: seq<T>, moved: bool)
    requires i0 < n <= |h0|
    requires HeapAround(h0, key, n, i0)
    ensures multiset(h) == multiset(h0) && |h| == |h0|
    ensures forall k | n <= k < |h| :: h[k] == h0[k]
    ensures moved ==> IsHeapUpTo(h, key, n)
    ensures !moved ==> h == h0 && ChildrenOk(h, key, n, i0)
  {
    h := h0;
    var i := i0;
    while 2 * i + 1 < n
      invariant i0 <= i < n <= |h| == |h0|
      invariant multiset(h) == multiset(h0)
      invariant forall k | n <= k < |h| :: h[k] == h0[k]
      invariant HeapAround(h, key, n, i)
      invariant if i == i0 then h == h0 else Ordered(h, key, i)
      decreases n - i
    {
      var j := SmallerChild(h, key, n, i);
      if key(h[j]) >= key(h[i]) {
        break;
      }
      DownStep(h, key, n, i, j);
      h := Swapped(h, i, j);
      i := j;
    }
    moved := i > i0;
    assert ChildrenOk(h, key, n, i);
    forall k: nat | moved && k < n ensures Ordered(h, key, k) {
    }
  }

  /** Dropping the last slot drops exactly its element. */
  lemma DropLast<T>(h: seq<T>)
    requires |h| > 0
    ensures multiset(h[..|h| - 1]) == multiset(h) - multiset{h[|h| - 1]}
  {
    assert h == h[..|h| - 1] + [h[|h| - 1]];
  }

  lemma HeapPrefix<T>(h: seq<T>, key: T -> int, n: nat)
    requires n <= |h| && IsHeapUpTo(h, key, n)
    ensures IsHeap(h[..n], key)
  {
    forall k: nat | k < n ensures Ordered(h[..n], key, k) {
      assert Ordered(h, key, k);
    }
  }

  lemma HeapDropLast<T>(h: seq<T>, key: T -> int)
    requires |h| > 0 && IsHeap(h, key)
    ensures IsHeap(h[..|h| - 1], key)
  {
    HeapPrefix(h, key, |h| - 1);
  }

  method Push<T>(h0: seq<T>, key: T -> int, x: T) returns (h: seq<T>)
    requires IsHeap(h0, key)
    ensures IsHeap(h, key)
    ensures multiset(h) == multiset(h0) + multiset{x}
  {
    var n := |h0|;
    forall k: nat | k < n ensures Ordered(h0 + [x], key, k) {
      assert Ordered(h0, key, k);
    }
    h := Up(h0 + [x], key, n);
  }

  /** After the last element has taken slot `i`, only slot `i` can be out of order. */
  lemma SwapOutKeepsHeap<T>(h: seq<T>, key: T -> int, i: nat)
    requires IsHeap(h, key) && i < |h| - 1
    ensures HeapAround(Swapped(h, i, |h| - 1), key, |h| - 1, i)
  {
    var n := |h| - 1;
    var r := Swapped(h, i, n);
    assert i > 0 ==> Ordered(h, key, i);
    forall k: nat | 0 < k < n
      ensures k != i && Parent(k) != i ==> Ordered(r, key, k)
      ensures Parent(k) == i && i > 0 ==> key(r[Parent(i)]) <= key(r[k])
    {
      assert Ordered(h, key, k);
    }
  }

  lemma PrefixAround<T>(h: seq<T>, key: T -> int, n: nat, i: nat)
    requires i < n <= |h| && HeapAround(h, key, n, i) && ChildrenOk(h, key, n, i)
    ensures HeapAround(h[..n], key, n, i) && ChildrenOk(h[..n], key, n, i)
  {
    forall k: nat | k < n ensures Ordered(h, key, k) ==> Ordered(h[..n], key, k) {
    }
  }

  method Remove<T>(h0: seq<T>, key: T -> int, i: nat) returns (h: seq<T>, x: T)
    requires IsHeap(h0, key) && i < |h0|
    ensures x == h0[i]
    ensures IsHeap(h, key)
    ensures multiset(h) == multiset(h0) - multiset{x}
  {
    hide *;
    var n := |h0| - 1;
    if n == i {
      x := h0[n];
      DropLast(h0);
      HeapDropLast(h0, key);
      h := h0[..n];
      return;
    }
    SwapOutKeepsHeap(h0, key, i);
    var moved;
    h, moved := Down(Swapped(h0, i, n), key, i, n);
    x := h[n];
    DropLast(h);
    if moved {
      HeapPrefix(h, key, n);
      h := h[..n];
    } else {
      PrefixAround(h, key, n, i);
      h := Up(h[..n], key, i);
    }
  }

  method Pop<T>(h0: seq<T>, key: T -> int) returns (h: seq<T>, x: T)
    requires IsHeap(h0, key) && |h0| > 0
    ensures x == h0[0] && forall k | 0 <= k < |h0| :: key(x) <= key(h0[k])
    ensures IsHeap(h, key)
    ensures multiset(h) == multiset(h0) - multiset{x}
  {
    forall k | 0 <= k < |h0| ensures key(h0[0]) <= key(h0[k]) {
      RootIsLeast(h0, key, k);
    }
    var n := |h0| - 1;
    h := Swapped(h0, 0, n);
    if n > 0 {
      SwapOutKeepsHeap(h0, key, 0);
      var moved;
      h, moved := Down(h, key, 0, n);
    }
    x := h[n];
    DropLast(h);
    HeapPrefix(h, key, n);
    h := h[..n];
  }
}
