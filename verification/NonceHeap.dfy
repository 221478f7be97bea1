/** The binary heap that `container/heap` keeps on a nonceHeap slice. */
module NonceHeap {
  import opened Base

  function Parent(j: nat): (p: nat)
    requires j > 0
    ensures j == 2 * p + 1 || j == 2 * p + 2
  {
    (j - 1) / 2
  }

  /** The element at `j` is at least as large as its parent. */
  predicate Link(h: seq<Uint64>, j: nat)
    requires 0 < j < |h|
  {
    h[Parent(j)] <= h[j]
  }

  ghost predicate IsHeap(h: seq<Uint64>) {
    forall j :: 0 < j < |h| ==> Link(h, j)
  }

  lemma {:induction false} RootIsMinimum(h: seq<Uint64>, j: nat)
    requires IsHeap(h) && j < |h|
    ensures h[0] <= h[j]
  {
    if j > 0 {
      assert Link(h, j);
      RootIsMinimum(h, Parent(j));
    }
  }

  function Swapped(h: seq<Uint64>, i: nat, j: nat): (r: seq<Uint64>)
    requires i < |h| && j < |h|
    ensures |r| == |h| && multiset(r) == multiset(h)
    ensures forall k :: 0 <= k < |h| ==> r[k] == if k == j then h[i] else if k == i then h[j] else h[k]
  {
    h[i := h[j]][j := h[i]]
  }

  /** The children of `i` (among the first `n`) are at least as large as the parent of `i`. */
  ghost predicate Bridged(h: seq<Uint64>, n: nat, i: nat)
    requires 0 < i && n <= |h|
  {
    && (2 * i + 1 < n ==> h[Parent(i)] <= h[2 * i + 1])
    && (2 * i + 2 < n ==> h[Parent(i)] <= h[2 * i + 2])
  }

  /** Loop state of sift-up: only the link from `k` to its parent may be broken. */
  ghost predicate UpState(h: seq<Uint64>, n: nat, k: nat) {
    && k < n <= |h|
    && (forall j :: 0 < j < n && j != k ==> Link(h, j))
    && (k > 0 ==> Bridged(h, n, k))
  }

  lemma UpStep(h: seq<Uint64>, n: nat, k: nat)
    requires UpState(h, n, k) && k > 0 && !Link(h, k)
    ensures UpState(Swapped(h, Parent(k), k), n, Parent(k))
  {
    var p, r := Parent(k), Swapped(h, Parent(k), k);
    forall j | 0 < j < n && j != p ensures Link(r, j) {
      assert j != k ==> Link(h, j);
    }
    if p > 0 {
      assert Link(h, p);
      assert 2 * p + 1 < n && 2 * p + 1 != k ==> Link(h, 2 * p + 1);
      assert 2 * p + 2 < n && 2 * p + 2 != k ==> Link(h, 2 * p + 2);
    }
  }

  /** Loop state of sift-down: among the links whose parent is at least `lo`, only those from `i`
      to its children may be broken, and while nothing has moved also the one above `i`. */
  ghost predicate DownState(h: seq<Uint64>, n: nat, lo: nat, i: nat, moved: bool) {
    && lo <= i && n <= |h|
    && (forall j :: 0 < j < n && lo <= Parent(j) && Parent(j) != i && (moved || j != i) ==> Link(h, j))
    && (i > 0 && lo <= Parent(i) ==> Bridged(h, n, i))
  }

  lemma DownStep(h: seq<Uint64>, n: nat, lo: nat, i: nat, moved: bool, child: nat)
    requires DownState(h, n, lo, i, moved)
    requires i < child < n && Parent(child) == i && h[child] < h[i]
    requires 2 * i + 1 < n ==> h[child] <= h[2 * i + 1]
    requires 2 * i + 2 < n ==> h[child] <= h[2 * i + 2]
    ensures DownState(Swapped(h, i, child), n, lo, child, true)
  {
    var r := Swapped(h, i, child);
    forall j | 0 < j < n && lo <= Parent(j) && Parent(j) != child ensures Link(r, j) {
      assert Parent(j) != i && j != i ==> Link(h, j);
    }
    assert 2 * child + 1 < n ==> Link(h, 2 * child + 1);
    assert 2 * child + 2 < n ==> Link(h, 2 * child + 2);
  }

  lemma DownDone(h: seq<Uint64>, n: nat, lo: nat, i: nat, moved: bool)
    requires DownState(h, n, lo, i, moved)
    requires 2 * i + 1 < n ==> Link(h, 2 * i + 1)
    requires 2 * i + 2 < n ==> Link(h, 2 * i + 2)
    ensures forall j :: 0 < j < n && lo <= Parent(j) && (moved || j != i) ==> Link(h, j)
  {
  }

  /** `a` permutes `b` without touching the elements from `n` on. */
  ghost predicate Rearranged(a: seq<Uint64>, b: seq<Uint64>, n: nat) {
    && |a| == |b| && multiset(a) == multiset(b)
    && forall k :: n <= k < |a| ==> a[k] == b[k]
  }

  lemma RearrangedSwap(a: seq<Uint64>, b: seq<Uint64>, n: nat, i: nat, j: nat)
    requires Rearranged(a, b, n) && i < n <= |a| && j < n
    ensures Rearranged(Swapped(a, i, j), b, n)
  {
    hide Swapped;
  }

  class Heap {
    var a: seq<Uint64>

    constructor ()
      ensures a == []
    {
      a := [];
    }

    method Swap(i: nat, j: nat)
      requires i < |a| && j < |a|
      modifies this
      ensures a == Swapped(old(a), i, j)
    {
      a := a[i := a[j]][j := a[i]];
    }

    /** Moves the element at `k` towards the root until its parent is no larger. */
    method Up(k: nat, n: nat)
      requires UpState(a, n, k)
      modifies this
      ensures Rearranged(a, old(a), n)
      ensures forall j :: 0 < j < n ==> Link(a, j)
    {
      var j: nat := k;
      while j > 0 && a[j] < a[(j - 1) / 2]
        invariant Rearranged(a, old(a), n)
        invariant UpState(a, n, j)
      {
        UpStep(a, n, j);
        var i := (j - 1) / 2;
        Swap(i, j);
        j := i;
      }
    }

    /** Moves the element at `start` away from the root, within the first `n` elements. Links whose
        parent is below `lo` are not looked at: `Init` has not established them yet. */
    method Down(start: nat, n: nat, ghost lo: nat) returns (moved: bool)
      requires DownState(a, n, lo, start, false)
      modifies this
      ensures Rearranged(a, old(a), n)
      ensures forall j :: 0 < j < n && lo <= Parent(j) && (moved || j != start) ==> Link(a, j)
      ensures !moved ==> a == old(a)
    {
      var i := start;
      assert n <= |a| && Rearranged(a, a, n);
      hide DownState, Rearranged, Swapped;
      while 2 * i + 1 < n
        invariant start <= i && n <= |a|
        invariant Rearranged(a, old(a), n)
        invariant i == start ==> a == old(a)
        invariant DownState(a, n, lo, i, i > start)
      {
        var child := 2 * i + 1;
        if child + 1 < n && a[child + 1] < a[child] {
          child := child + 1;
        }
        if a[child] >= a[i] {
          break;
        }
        DownStep(a, n, lo, i, i > start, child);
        RearrangedSwap(a, old(a), n, i, child);
        Swap(i, child);
        i := child;
      }
      DownDone(a, n, lo, i, i > start);
      moved := i > start;
    }

    /** heap.Init: establishes the heap order on arbitrary contents. */
    method Init()
      modifies this
      ensures IsHeap(a)
      ensures multiset(a) == multiset(old(a))
    {
      var n := |a|;
      var i := n / 2 - 1;
      while i >= 0
        invariant -1 <= i && n == |a|
        invariant multiset(a) == multiset(old(a))
        invariant forall j :: 0 < j < n && i < Parent(j) ==> Link(a, j)
      {
        var _ := Down(i, n, i);
        i := i - 1;
      }
    }

    /** heap.Push. */
    method Push(x: Uint64)
      requires IsHeap(a)
      modifies this
      ensures IsHeap(a)
      ensures multiset(a) == multiset(old(a)) + multiset{x}
    {
      ghost var h := a;
      a := a + [x];
      assert forall j :: 0 < j < |h| ==> Link(h, j) ==> Link(a, j);
      Up(|a| - 1, |a|);
    }

    /** Drops the last element, which the callers have swapped out of the heap. */
    method DropLast() returns (x: Uint64)
      requires a != []
      requires forall j :: 0 < j < |a| - 1 ==> Link(a, j)
      modifies this
      ensures x == old(a[|a| - 1]) && a == old(a[..|a| - 1])
      ensures IsHeap(a)
      ensures multiset(a) == multiset(old(a)) - multiset{x}
    {
      var n := |a| - 1;
      assert a == a[..n] + [a[n]];
      assert forall j :: 0 < j < n ==> Link(a, j) ==> Link(a[..n], j);
      x := a[n];
      a := a[..n];
    }

    /** heap.Pop: takes out the smallest element. */
    method Pop() returns (x: Uint64)
      requires IsHeap(a) && a != []
      modifies this
      ensures IsHeap(a)
      ensures x == old(a[0])
      ensures multiset(a) == multiset(old(a)) - multiset{x}
      ensures |a| == old(|a|) - 1
      ensures forall y :: y in old(a) ==> x <= y
    {
      forall j | 0 <= j < |a| ensures a[0] <= a[j] {
        RootIsMinimum(a, j);
      }
      ghost var h := a;
      var n := |a| - 1;
      Swap(0, n);
      forall j | 0 < j < n && Parent(j) != 0 ensures Link(a, j) {
        assert Link(h, j);
      }
      var _ := Down(0, n, 0);
      x := DropLast();
    }

    /** heap.Remove: takes out the element at `i`. */
    method Remove(i: nat) returns (x: Uint64)
      requires IsHeap(a) && i < |a|
      modifies this
      ensures IsHeap(a)
      ensures x == old(a[i])
      ensures multiset(a) == multiset(old(a)) - multiset{x}
      ensures |a| == old(|a|) - 1
    {
      var n := |a| - 1;
      if n != i {
        MoveOut(i, n);
      }
      x := DropLast();
    }

    /** Swaps the element at `i` out to the end and restores the order of the others: down from `i`, or up
        if that moved nothing. */
    method MoveOut(i: nat, n: nat)
      requires IsHeap(a) && i < n == |a| - 1
      modifies this
      ensures |a| == n + 1 && multiset(a) == multiset(old(a)) && a[n] == old(a[i])
      ensures forall j :: 0 < j < n ==> Link(a, j)
    {
      RemoveState(a, i);
      hide DownState, Bridged, Link;
      Swap(i, n);
      var moved := Down(i, n, 0);
      if !moved {
        Up(i, n);
      }
    }
  }

  lemma RemoveState(h: seq<Uint64>, i: nat)
    requires IsHeap(h) && i < |h| - 1
    ensures DownState(Swapped(h, i, |h| - 1), |h| - 1, 0, i, false)
    ensures i > 0 ==> Bridged(Swapped(h, i, |h| - 1), |h| - 1, i)
  {
    var n := |h| - 1;
    forall j | 0 < j < n && Parent(j) != i && j != i ensures Link(Swapped(h, i, n), j) {
      assert Link(h, j);
    }
    if i > 0 {
      assert Link(h, i);
      assert 2 * i + 1 < n ==> Link(h, 2 * i + 1);
      assert 2 * i + 2 < n ==> Link(h, 2 * i + 2);
    }
  }
}
