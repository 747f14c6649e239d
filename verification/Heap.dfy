/** The heap of build_tree (trees.c): nodes ordered by frequency, and by depth between equal
    frequencies. heap[0] is not used; the sons of heap[k] are heap[2k] and heap[2k+1]. */
module Heap {

  /** The order of the heap. */
  predicate Smaller(f: seq<nat>, depth: seq<nat>, n: nat, m: nat)
    requires n < |f| && m < |f| && |f| <= |depth|
  {
    f[n] < f[m] || (f[n] == f[m] && depth[n] <= depth[m])
  }

  ghost predicate NodesIn(h: seq<nat>, len: nat, n: nat) {
    len < |h| && forall i :: 1 <= i <= len ==> h[i] < n
  }

  /** h[p] is not greater than its sons. */
  ghost predicate Down(h: seq<nat>, len: nat, f: seq<nat>, depth: seq<nat>, p: nat)
    requires NodesIn(h, len, |f|) && |f| <= |depth| && 1 <= p
  {
    && (2 * p <= len ==> Smaller(f, depth, h[p], h[2 * p]))
    && (2 * p + 1 <= len ==> Smaller(f, depth, h[p], h[2 * p + 1]))
  }

  /** The heap property holds from k on. */
  ghost predicate HeapFrom(h: seq<nat>, len: nat, f: seq<nat>, depth: seq<nat>, k: nat)
    requires NodesIn(h, len, |f|) && |f| <= |depth| && 1 <= k
  {
    forall p: nat :: k <= p ==> Down(h, len, f, depth, p)
  }

  /** The heap property holds from lo on but for node k, whose sons are not smaller than its father. */
  ghost predicate HeapBut(h: seq<nat>, len: nat, f: seq<nat>, depth: seq<nat>, lo: nat, k: nat)
    requires NodesIn(h, len, |f|) && |f| <= |depth| && 1 <= lo <= k
  {
    && (forall p: nat :: lo <= p && p != k ==> Down(h, len, f, depth, p))
    && (lo <= k / 2 ==>
          (2 * k <= len ==> Smaller(f, depth, h[k / 2], h[2 * k]))
              && (2 * k + 1 <= len ==> Smaller(f, depth, h[k / 2], h[2 * k + 1])))
  }

  function Swapped(s: seq<nat>, i: nat, j: nat): (r: seq<nat>)
    requires i < |s| && j < |s|
    ensures |r| == |s|
  {
    s[i := s[j]][j := s[i]]
  }

  /** The nodes in the heap. */
  ghost function Bag(h: seq<nat>, len: nat): multiset<nat>
    requires len < |h|
  {
    multiset(h[1..len + 1])
  }

  lemma {:induction false} SwapBag(h: seq<nat>, len: nat, i: nat, j: nat)
    requires len < |h| && 1 <= i <= len && 1 <= j <= len
    ensures Bag(Swapped(h, i, j), len) == Bag(h, len)
  {
    var s := h[1..len + 1];
    assert Swapped(h, i, j)[1..len + 1] == s[i - 1 := s[j - 1]][j - 1 := s[i - 1]];
  }

  /** One exchange moves the gap down to the smaller son j of k. */
  lemma {:induction false} Sift(h: seq<nat>, len: nat, f: seq<nat>, depth: seq<nat>, lo: nat, k: nat, j: nat)
    requires NodesIn(h, len, |f|) && |f| <= |depth| && 1 <= lo <= k && HeapBut(h, len, f, depth, lo, k)
    requires j / 2 == k && j <= len && Smaller(f, depth, h[j], h[k])
    requires 2 * k <= len ==> Smaller(f, depth, h[j], h[2 * k])
    requires 2 * k + 1 <= len ==> Smaller(f, depth, h[j], h[2 * k + 1])
    ensures NodesIn(Swapped(h, k, j), len, |f|) && HeapBut(Swapped(h, k, j), len, f, depth, lo, j)
  {
    var g := Swapped(h, k, j);
    forall p: nat | lo <= p && p != j ensures Down(g, len, f, depth, p) {
      if p != k { assert Down(h, len, f, depth, p); }
    }
    assert Down(h, len, f, depth, j);
  }

  /** The smaller of the sons j and j + 1 of k; j is the only one when it is the last node. */
  method SmallerSon(heap: array<nat>, len: nat, fc: array<nat>, depth: array<nat>, j: nat) returns (r: nat)
    requires NodesIn(heap[..], len, fc.Length) && fc.Length <= depth.Length && 2 <= j <= len && j % 2 == 0
    ensures r / 2 == j / 2 && j <= r <= len
    ensures heap[r] < fc.Length && heap[j] < fc.Length && (j < len ==> heap[j + 1] < fc.Length)
    ensures Smaller(fc[..], depth[..], heap[r], heap[j])
        && (j < len ==> Smaller(fc[..], depth[..], heap[r], heap[j + 1]))
  {
    r := j;
    assert heap[..][j] == heap[j];
    if j < len {
      assert heap[..][j + 1] == heap[j + 1];
      if Smaller(fc[..], depth[..], heap[j + 1], heap[j]) { r := j + 1; }
    }
  }

  lemma {:induction false} MoveUp(a: seq<nat>, h: seq<nat>, k: nat, j: nat, v: nat)
    requires k < |a| && j < |a| && k != j && h == a[k := v]
    ensures Swapped(h, k, j) == a[k := a[j]][j := v]
  {
  }

  /** pqdownheap: let node k sink until the heap property holds from k on. */
  method PqDownHeap(heap: array<nat>, len: nat, fc: array<nat>, depth: array<nat>, k0: nat)
    requires NodesIn(heap[..], len, fc.Length) && fc.Length <= depth.Length && 1 <= k0 <= len
    requires HeapFrom(heap[..], len, fc[..], depth[..], k0 + 1) && heap != fc && heap != depth
    modifies heap
    ensures NodesIn(heap[..], len, fc.Length) && HeapFrom(heap[..], len, fc[..], depth[..], k0)
    ensures Bag(heap[..], len) == old(Bag(heap[..], len))
    ensures forall i :: 0 <= i < heap.Length && (i < 1 || i > len) ==> heap[i] == old(heap[i])
  {
    hide Down, HeapBut, HeapFrom, Bag, Swapped;
    var k := k0;
    var v := heap[k];
    var j := 2 * k;
    ghost var h := heap[..];
    ghost var f, dep := fc[..], depth[..];
    SinkStart(h, len, f, dep, k0);
    assert h == heap[..][k := v];
    while j <= len
      invariant k0 <= k <= len && j == 2 * k && NodesIn(h, len, fc.Length) && NodesIn(heap[..], len, fc.Length)
          && |h| == heap.Length && v < fc.Length
      invariant h == heap[..][k := v] && fc[..] == f && depth[..] == dep
      invariant HeapBut(h, len, f, dep, k0, k) && Bag(h, len) == old(Bag(heap[..], len))
      invariant forall i :: 0 <= i < heap.Length && (i < 1 || i > len) ==> heap[i] == old(heap[i])
      decreases len - k
    {
      j := SmallerSon(heap, len, fc, depth, j);
      if Smaller(fc[..], depth[..], v, heap[j]) {
        SonsBig(h, len, f, dep, k, j);
        break;
      }
      SinkOne(h, heap[..], len, f, dep, k0, k, j, v);
      heap[k] := heap[j];
      h := Swapped(h, k, j);
      k := j;
      j := 2 * j;
      assert heap[..][k := v] == h;
    }
    if j > len { NoSons(h, len, f, dep, k); }
    heap[k] := v;
    assert heap[..] == h;
    SinkEnd(h, len, f, dep, k0, k);
  }

  /** One turn, on the sequence a with v missing at k. */
  lemma {:induction false} SinkOne(h: seq<nat>, a: seq<nat>, len: nat, f: seq<nat>, depth: seq<nat>, lo: nat, k: nat,
      j: nat, v: nat)
    requires NodesIn(h, len, |f|) && NodesIn(a, len, |f|) && |f| <= |depth| && 1 <= lo <= k <= len && h == a[k := v]
        && v < |f|
    requires HeapBut(h, len, f, depth, lo, k) && j / 2 == k && 2 * k <= j <= len && !Smaller(f, depth, v, a[j])
    requires Smaller(f, depth, a[j], a[2 * k]) && (2 * k < len ==> Smaller(f, depth, a[j], a[2 * k + 1]))
    ensures NodesIn(Swapped(h, k, j), len, |f|) && HeapBut(Swapped(h, k, j), len, f, depth, lo, j)
    ensures Bag(Swapped(h, k, j), len) == Bag(h, len) && Swapped(h, k, j) == a[k := a[j]][j := v]
    ensures NodesIn(a[k := a[j]], len, |f|)
  {
    hide HeapBut, Bag, Swapped;
    MoveUp(a, h, k, j, v);
    Sift(h, len, f, depth, lo, k, j);
    SwapBag(h, len, k, j);
  }

  lemma {:induction false} SonsBig(h: seq<nat>, len: nat, f: seq<nat>, depth: seq<nat>, k: nat, j: nat)
    requires NodesIn(h, len, |f|) && |f| <= |depth| && 1 <= k && j / 2 == k && j <= len && Smaller(f, depth, h[k], h[j])
    requires 2 * k <= len ==> Smaller(f, depth, h[j], h[2 * k])
    requires 2 * k < len ==> Smaller(f, depth, h[j], h[2 * k + 1])
    ensures Down(h, len, f, depth, k)
  {
  }

  lemma {:induction false} NoSons(h: seq<nat>, len: nat, f: seq<nat>, depth: seq<nat>, k: nat)
    requires NodesIn(h, len, |f|) && |f| <= |depth| && 1 <= k && 2 * k > len
    ensures Down(h, len, f, depth, k)
  {
  }

  lemma {:induction false} SinkStart(h: seq<nat>, len: nat, f: seq<nat>, depth: seq<nat>, k: nat)
    requires NodesIn(h, len, |f|) && |f| <= |depth| && 1 <= k && HeapFrom(h, len, f, depth, k + 1)
    ensures HeapBut(h, len, f, depth, k, k)
  {
  }

  lemma {:induction false} SinkEnd(h: seq<nat>, len: nat, f: seq<nat>, depth: seq<nat>, lo: nat, k: nat)
    requires NodesIn(h, len, |f|) && |f| <= |depth| && 1 <= lo <= k && HeapBut(h, len, f, depth, lo, k)
        && Down(h, len, f, depth, k)
    ensures HeapFrom(h, len, f, depth, lo)
  {
  }

  /** The first node is not greater than any other. */
  lemma {:induction false} FirstIsLeast(h: seq<nat>, len: nat, f: seq<nat>, depth: seq<nat>, i: nat)
    requires NodesIn(h, len, |f|) && |f| <= |depth| && HeapFrom(h, len, f, depth, 1) && 1 <= i <= len
    ensures Smaller(f, depth, h[1], h[i])
  {
    if i > 1 {
      FirstIsLeast(h, len, f, depth, i / 2);
      assert Down(h, len, f, depth, i / 2);
    }
  }
}
