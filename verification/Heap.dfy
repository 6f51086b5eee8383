/**
 Binary min-heaps in a slice, as the pool's nonce heap and price heap use them through Go's
 container/heap (core/tx_list.go).  `key` is what the heap's Less compares.
 */
module Heap {

  predicate IsChild(p: int, c: int) {
    0 <= p && (c == 2 * p + 1 || c == 2 * p + 2)
  }

  /** No child is smaller than its parent. */
  ghost predicate IsHeap<T>(h: seq<T>, key: T -> int) {
    forall p, c :: IsChild(p, c) && 0 <= c < |h| ==> key(h[p]) <= key(h[c])
  }

  /** The first element is a smallest one. */
  lemma {:induction false} RootIsLeast<T>(h: seq<T>, key: T -> int, i: nat)
    requires IsHeap(h, key) && i < |h|
    ensures key(h[0]) <= key(h[i])
  {
    if i > 0 {
      assert IsChild((i - 1) / 2, i);
      RootIsLeast(h, key, (i - 1) / 2);
    }
  }

  /** A heap in which the element at `j` may be smaller than its parent. */
  ghost predicate HeapButUp<T>(h: seq<T>, key: T -> int, j: int) {
    && (forall p, c :: IsChild(p, c) && 0 <= c < |h| && c != j ==> key(h[p]) <= key(h[c]))
    && (forall p, c :: IsChild(p, j) && IsChild(j, c) && 0 <= c < |h| ==> key(h[p]) <= key(h[c]))
  }

  /** A heap from `from` on, in which the element at `i` may be larger than its children. */
  ghost predicate HeapButDown<T>(h: seq<T>, key: T -> int, from: int, i: int) {
    && (forall p, c :: IsChild(p, c) && from <= p && 0 <= c < |h| && p != i ==> key(h[p]) <= key(h[c]))
    && (forall p, c :: IsChild(p, i) && from <= p && IsChild(i, c) && 0 <= c < |h| ==> key(h[p]) <= key(h[c]))
  }

  ghost predicate HeapFrom<T>(h: seq<T>, key: T -> int, from: int) {
    forall p, c :: IsChild(p, c) && from <= p && 0 <= c < |h| ==> key(h[p]) <= key(h[c])
  }

  ghost predicate HeapAt<T>(h: seq<T>, key: T -> int, i: int) {
    forall c :: IsChild(i, c) && 0 <= c < |h| ==> key(h[i]) <= key(h[c])
  }

  function Swap<T>(h: seq<T>, i: nat, j: nat): (r: seq<T>)
    requires i < |h| && j < |h|
    ensures |r| == |h| && multiset(r) == multiset(h)
  {
    h[i := h[j]][j := h[i]]
  }

  method Up<T>(h0: seq<T>, key: T -> int, j0: nat) returns (h: seq<T>)
    requires j0 < |h0| && HeapButUp(h0, key, j0)
    ensures IsHeap(h, key) && multiset(h) == multiset(h0) && |h| == |h0|
  {
    h := h0;
    var j := j0;
    while j > 0
      invariant |h| == |h0| && multiset(h) == multiset(h0) && j < |h| && HeapButUp(h, key, j)
    {
      var i := (j - 1) / 2;
      assert IsChild(i, j);
      if key(h[j]) >= key(h[i]) {
        return;
      }
      h := Swap(h, i, j);
      j := i;
    }
  }

  lemma SinkStep<T>(h: seq<T>, key: T -> int, from: nat, i: nat, j: nat)
    requires HeapButDown(h, key, from, i) && IsChild(i, j) && j < |h| && from <= i && key(h[j]) < key(h[i])
    requires forall c :: IsChild(i, c) && c < |h| ==> key(h[j]) <= key(h[c])
    ensures HeapButDown(Swap(h, i, j), key, from, j)
  {
  }

  /**
   Move the element at `i0` down to its place.  When it is not `loose`, that is, not larger than its
   children, nothing moves, even if it is smaller than its parent.
   */
  method Down<T>(h0: seq<T>, key: T -> int, i0: nat, ghost from: nat, ghost loose: bool)
    returns (h: seq<T>, moved: bool)
    requires from <= i0 <= |h0|
    requires if loose then HeapButDown(h0, key, from, i0) else HeapAt(h0, key, i0)
    ensures multiset(h) == multiset(h0) && |h| == |h0|
    ensures loose ==> HeapFrom(h, key, from)
    ensures !loose ==> !moved
    ensures !moved ==> h == h0
  {
    h := h0;
    var i := i0;
    while 2 * i + 1 < |h|
      invariant |h| == |h0| && multiset(h) == multiset(h0) && i0 <= i
      invariant loose ==> HeapButDown(h, key, from, i)
      invariant !loose || i == i0 ==> i == i0 && h == h0
      decreases |h| - i
    {
      var j := 2 * i + 1;
      if j + 1 < |h| && key(h[j + 1]) < key(h[j]) {
        j := j + 1;
      }
      assert IsChild(i, j);
      if key(h[j]) >= key(h[i]) {
        break;
      }
      SinkStep(h, key, from, i, j);
      h := Swap(h, i, j);
      i := j;
    }
    moved := i > i0;
  }

  method Init<T>(h0: seq<T>, key: T -> int) returns (h: seq<T>)
    ensures IsHeap(h, key) && multiset(h) == multiset(h0) && |h| == |h0|
  {
    h := h0;
    var i := |h| / 2;
    while i > 0
      invariant 0 <= i <= |h| / 2 && |h| == |h0| && multiset(h) == multiset(h0)
      invariant HeapFrom(h, key, i)
    {
      i := i - 1;
      var moved;
      h, moved := Down(h, key, i, i, true);
    }
  }

  method Push<T>(h0: seq<T>, key: T -> int, x: T) returns (h: seq<T>)
    requires IsHeap(h0, key)
    ensures IsHeap(h, key) && multiset(h) == multiset(h0) + multiset{x} && |h| == |h0| + 1
  {
    h := Up(h0 + [x], key, |h0|);
  }

  method Pop<T>(h0: seq<T>, key: T -> int) returns (h: seq<T>, x: T)
    requires IsHeap(h0, key) && h0 != []
    ensures IsHeap(h, key) && multiset(h) == multiset(h0) - multiset{x} && |h| == |h0| - 1
    ensures x == h0[0] && forall y :: y in h0 ==> key(x) <= key(y)
  {
    x := h0[0];
    forall y | y in h0
      ensures key(x) <= key(y)
    {
      var i: nat :| i < |h0| && h0[i] == y;
      RootIsLeast(h0, key, i);
    }
    var n := |h0| - 1;
    TakeOut(h0, 0);
    h := Swap(h0, 0, n)[..n];
    assert h == Filled(h0, 0);
    var moved;
    h, moved := Down(h, key, 0, 0, true);
  }

  method Remove<T>(h0: seq<T>, key: T -> int, i: nat) returns (h: seq<T>)
    requires IsHeap(h0, key) && i < |h0|
    ensures IsHeap(h, key) && multiset(h) == multiset(h0) - multiset{h0[i]} && |h| == |h0| - 1
  {
    var n := |h0| - 1;
    TakeOut(h0, i);
    h := Swap(h0, i, n)[..n];
    assert h == Filled(h0, i);
    if i < n {
      ghost var loose := FilledHeap(h0, key, i);
      var moved;
      h, moved := Down(h, key, i, 0, loose);
      if !moved {
        assert loose ==> IsHeap(h, key);
        h := Up(h, key, i);
      }
    }
  }

  /** The slice without its last element, which has taken the place of the one at `i`. */
  function Filled<T>(h: seq<T>, i: nat): seq<T>
    requires i < |h|
  {
    if i == |h| - 1 then h[..|h| - 1] else h[..|h| - 1][i := h[|h| - 1]]
  }

  lemma TakeOut<T>(h: seq<T>, i: nat)
    requires i < |h|
    ensures multiset(Filled(h, i)) == multiset(h) - multiset{h[i]}
  {
    assert h == h[..|h| - 1] + [h[|h| - 1]];
  }

  /** The last element fits above the children of its new place, or below its parent there. */
  lemma FilledHeap<T>(h: seq<T>, key: T -> int, i: nat) returns (loose: bool)
    requires IsHeap(h, key) && i < |h| - 1
    ensures loose ==> HeapButDown(Filled(h, i), key, 0, i)
    ensures !loose ==> HeapAt(Filled(h, i), key, i)
    ensures !loose ==> HeapButUp(Filled(h, i), key, i)
  {
    var r := Filled(h, i);
    var up := (i - 1) / 2;
    loose := i == 0 || key(r[i]) >= key(r[up]);
    assert i > 0 ==> IsChild(up, i) && key(h[up]) <= key(h[i]);
    assert forall p :: IsChild(p, i) ==> p == up;
    assert forall c :: IsChild(i, c) && c < |r| ==> r[c] == h[c] && key(h[i]) <= key(h[c]);
  }

  ghost predicate IsSorted<T>(s: seq<T>, key: T -> int) {
    forall i, j :: 0 <= i < j < |s| ==> key(s[i]) <= key(s[j])
  }

  /** Go's sort, as a heap sort. */
  method Sort<T>(s: seq<T>, key: T -> int) returns (r: seq<T>)
    ensures IsSorted(r, key) && multiset(r) == multiset(s) && |r| == |s|
  {
    var h := Init(s, key);
    r := [];
    while h != []
      invariant IsHeap(h, key) && IsSorted(r, key) && multiset(r) + multiset(h) == multiset(s) && |r| + |h| == |s|
      invariant forall x, y :: x in r && y in h ==> key(x) <= key(y)
      decreases |h|
    {
      var rest, x := Pop(h, key);
      forall y | y in rest
        ensures y in h
      {
        assert y in multiset(rest);
      }
      h, r := rest, r + [x];
    }
  }
}
