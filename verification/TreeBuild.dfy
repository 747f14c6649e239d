/** build_tree (trees.c): a Huffman tree from the frequencies of the symbols, its lengths
    limited by gen_bitlen, and its code words. */
module TreeBuild {
  import opened Bits
  import opened Heap
  import opened Huffman
  import opened Depths
  import opened GenCodes
  import Canonical
  import InfTrees
  import R = Rfc1951

  const HEAP_SIZE: nat := 573

  /** The literal and length tree, the distance tree, and the tree of the code lengths. */
  datatype Kind = LTREE | DTREE | BLTREE

  function Elems(k: Kind): nat {
    match k
    case LTREE => 286
    case DTREE => 30
    case BLTREE => 19
  }

  function MaxLength(k: Kind): nat {
    if k == BLTREE then 7 else 15
  }

  /** Extra bits that are sent behind symbol n. */
  function XBits(k: Kind, n: nat): nat {
    match k
    case LTREE => if 257 <= n < 286 then R.LengthExtra(n - 257) else 0
    case DTREE => if n < 30 then R.DistExtra(n) else 0
    case BLTREE => if n < 16 then 0 else R.RepeatBits(n)
  }

  /** The length of symbol n in the static tree, when there is one. */
  function StaticLen(k: Kind, n: nat): nat {
    match k
    case LTREE => if n < 286 then R.FixedLens(InfTrees.LENS)[n] else 0
    case DTREE => if n < 30 then R.FixedLens(InfTrees.DISTS)[n] else 0
    case BLTREE => 0
  }

  /** A tree: per node, frequency and then code word, and father and then length. */
  class Tree {
    const kind: Kind
    const fc: array<nat>
    const dl: array<nat>
    var max_code: int

    ghost predicate Shape() {
      fc.Length == 2 * Elems(kind) + 1 == dl.Length && fc != dl
    }

    constructor (k: Kind)
      ensures Shape() && kind == k && fresh(fc) && fresh(dl)
    {
      kind := k;
      fc := new nat[2 * Elems(k) + 1](i => 0);
      dl := new nat[2 * Elems(k) + 1](i => 0);
      max_code := -1;
    }
  }

  // ---- the nodes taken off the heap ----

  /** Merge i is recorded: its sons at the end of the heap array, and their father. */
  ghost predicate RecordedAt(h: seq<nat>, dl: seq<nat>, merges: seq<Sons>, base: nat, i: nat)
    requires i < |merges| && |h| == HEAP_SIZE && 2 * |merges| <= HEAP_SIZE
  {
    && h[HEAP_SIZE - 1 - 2 * i] == merges[i].n && h[HEAP_SIZE - 2 - 2 * i] == merges[i].m
    && merges[i].n < |dl| && merges[i].m < |dl| && dl[merges[i].n] == base + i == dl[merges[i].m]
  }

  ghost predicate Recorded(h: seq<nat>, dl: seq<nat>, merges: seq<Sons>, base: nat) {
    && |h| == HEAP_SIZE && 2 * |merges| <= HEAP_SIZE
    && forall i: nat :: i < |merges| ==> RecordedAt(h, dl, merges, base, i)
  }

  /** From hmax on, nodes below n are in order of falling frequency. */
  ghost predicate Falling(h: seq<nat>, f: seq<nat>, hmax: nat, n: nat) {
    |h| == HEAP_SIZE && n <= |f| && (forall p :: hmax <= p < HEAP_SIZE ==> h[p] < n) &&
    forall p, q :: hmax <= p < q < HEAP_SIZE ==> f[h[q]] <= f[h[p]]
  }

  /** The loop of build_tree after some merges. */
  ghost predicate Building(h: seq<nat>, len: nat, f: seq<nat>, dl: seq<nat>, A: set<nat>, merges: seq<Sons>,
      base: nat) {
    && |dl| == |f| && Merged(A, f, merges, base) && Recorded(h, dl, merges, base)
    && NodesIn(h, len, |f|) && 1 <= len && len + |merges| <= 286
    && Bag(h, len) == multiset(Active(A, merges, base, |merges|))
    && Falling(h, f, HEAP_SIZE - 2 * |merges|, base + |merges|)
    && (|merges| > 0 ==> forall x :: x in Active(A, merges, base, |merges|) ==>
        x < |f| && f[h[HEAP_SIZE - 2 * |merges|]] <= f[x])
  }

  lemma {:induction false} ActivePrefix(A: set<nat>, merges: seq<Sons>, more: seq<Sons>, base: nat, k: nat)
    requires k <= |merges| && merges <= more
    ensures Active(A, merges, base, k) == Active(A, more, base, k)
    decreases k
  {
    if k > 0 { ActivePrefix(A, merges, more, base, k - 1); }
  }

  /** Merges stay right when one more is made. */
  lemma {:induction false} MergedGrows(A: set<nat>, f: seq<nat>, g: seq<nat>, merges: seq<Sons>, base: nat, s: Sons)
    requires Merged(A, f, merges, base) && |g| == |f| && base + |merges| < |f|
        && (forall x :: 0 <= x < base + |merges| ==> f[x] == g[x])
    requires Nodes(Active(A, merges, base, |merges|), |f|)
    requires Least(Active(A, merges, base, |merges|), f, s.n, s.m) && g[base + |merges|] == f[s.n] + f[s.m]
    ensures Merged(A, g, merges + [s], base)
  {
    var more := merges + [s];
    forall k: nat | k < |more| ensures MergedAt(A, g, more, base, k) {
      ActivePrefix(A, merges, more, base, k);
      ActiveNodes(A, f, merges, base, k);
      if k < |merges| { assert MergedAt(A, f, merges, base, k); }
    }
  }

  // ---- taking nodes off the heap and putting one in ----

  /** The last node takes the place of the first. */
  lemma {:induction false} RemoveFirst(h: seq<nat>, len: nat, f: seq<nat>, depth: seq<nat>)
    requires NodesIn(h, len, |f|) && |f| <= |depth| && HeapFrom(h, len, f, depth, 1) && len >= 1
    ensures var g := h[1 := h[len]];
            NodesIn(g, len - 1, |f|) && HeapFrom(g, len - 1, f, depth, 2)
                && Bag(g, len - 1) == Bag(h, len) - multiset{h[1]}
  {
    var g, l := h[1 := h[len]], len - 1;
    forall p: nat | 2 <= p ensures Down(g, l, f, depth, p) {
      assert Down(h, len, f, depth, p);
    }
    var s := h[1..len + 1];
    if len == 1 {
      assert g[1..1] == [] && s == [h[1]];
    } else {
      assert s == [h[1]] + h[2..len] + [h[len]];
      assert g[1..len] == [h[len]] + h[2..len];
    }
  }

  /** A new node takes the place of the first. */
  lemma {:induction false} ReplaceFirst(h: seq<nat>, len: nat, f: seq<nat>, depth: seq<nat>, g: seq<nat>,
      d2: seq<nat>, node: nat)
    requires NodesIn(h, len, |f|) && |f| <= |depth| && HeapFrom(h, len, f, depth, 1) && len >= 1
    requires node < |g| == |f| && |d2| == |depth| && NodesIn(h, len, node)
    requires forall x :: 0 <= x < node ==> f[x] == g[x] && depth[x] == d2[x]
    ensures var k := h[1 := node];
            NodesIn(k, len, |g|) && HeapFrom(k, len, g, d2, 2)
                && Bag(k, len) == Bag(h, len) - multiset{h[1]} + multiset{node}
  {
    var k := h[1 := node];
    forall p: nat | 2 <= p ensures Down(k, len, g, d2, p) {
      assert Down(h, len, f, depth, p);
    }
    assert h[1..len + 1] == [h[1]] + h[2..len + 1];
    assert k[1..len + 1] == [node] + h[2..len + 1];
  }

  /** The first node is a least frequent one. */
  lemma {:induction false} FirstLeast(h: seq<nat>, len: nat, f: seq<nat>, depth: seq<nat>, B: set<nat>)
    requires NodesIn(h, len, |f|) && |f| <= |depth| && HeapFrom(h, len, f, depth, 1) && len >= 1
        && Bag(h, len) == multiset(B)
    ensures h[1] in B && forall x :: x in B ==> x < |f| && f[h[1]] <= f[x]
  {
    var s := h[1..len + 1];
    assert s[0] in multiset(s);
    forall x | x in B ensures x < |f| && f[h[1]] <= f[x] {
      assert x in multiset(s);
      var i :| 0 <= i < |s| && s[i] == x;
      FirstIsLeast(h, len, f, depth, i + 1);
    }
  }

  lemma {:induction false} BagNodes(h: seq<nat>, len: nat, B: set<nat>, n: nat)
    requires len < |h| && Bag(h, len) == multiset(B) && Nodes(B, n)
    ensures NodesIn(h, len, n)
  {
    var s := h[1..len + 1];
    forall i | 1 <= i <= len ensures h[i] < n {
      assert s[i - 1] in multiset(s);
    }
  }

  lemma {:induction false} BagSize(h: seq<nat>, len: nat, B: set<nat>)
    requires len < |h| && Bag(h, len) == multiset(B)
    ensures |B| == len
  {
    assert |multiset(B)| == |B|;
  }

  lemma {:induction false} SetMinus(B: set<nat>, x: nat)
    requires x in B
    ensures multiset(B) - multiset{x} == multiset(B - {x})
  {
  }

  lemma {:induction false} SetPlus(B: set<nat>, x: nat)
    requires x !in B
    ensures multiset(B) + multiset{x} == multiset(B + {x})
  {
  }

  /** One merge more: the record, the order, and what is known of the merges still hold. */
  lemma {:induction false} BuildingNext(h: seq<nat>, len: nat, f: seq<nat>, dl: seq<nat>, A: set<nat>,
      merges: seq<Sons>, base: nat,
                                        h2: seq<nat>, g: seq<nat>, dl2: seq<nat>, s: Sons)
    requires Building(h, len, f, dl, A, merges, base) && Nodes(Active(A, merges, base, |merges|), |f|)
    requires Least(Active(A, merges, base, |merges|), f, s.n, s.m) && len >= 2
    requires base + |merges| < |f| == |g| && (forall x :: 0 <= x < |f| && x != base + |merges| ==> f[x] == g[x])
        && g[base + |merges|] == f[s.n] + f[s.m]
    requires s.n < |dl| && s.m < |dl| && dl2 == dl[s.n := base + |merges|][s.m := base + |merges|]
    requires |h2| == |h| && NodesIn(h2, len - 1, |f|)
        && Bag(h2, len - 1) == multiset(Active(A, merges + [s], base, |merges| + 1))
    requires h2[HEAP_SIZE - 1 - 2 * |merges|] == s.n && h2[HEAP_SIZE - 2 - 2 * |merges|] == s.m
    requires forall p :: HEAP_SIZE - 2 * |merges| <= p < HEAP_SIZE ==> h2[p] == h[p]
    ensures Building(h2, len - 1, g, dl2, A, merges + [s], base)
  {
    hide Merged, Recorded, Falling, Active, Bag, Merge;
    var k := |merges|;
    var B := Active(A, merges, base, k);
    var more := merges + [s];
    ActiveNodes(A, f, merges, base, k);
    MergedGrows(A, f, g, merges, base, s);
    RecordNext(h, dl, f, A, merges, base, h2, dl2, s, len);
    FallingNext(h, f, B, k, h2, g, s, base + k);
    ActivePrefix(A, merges, more, base, k);
    ActiveNext(A, more, base, k);
  }

  lemma {:induction false} RecordNext(h: seq<nat>, dl: seq<nat>, f: seq<nat>, A: set<nat>, merges: seq<Sons>, base: nat,
                                      h2: seq<nat>, dl2: seq<nat>, s: Sons, len: nat)
    requires Merged(A, f, merges, base) && Recorded(h, dl, merges, base) && 2 * |merges| + 2 <= HEAP_SIZE && len >= 2
    requires s.n in Active(A, merges, base, |merges|) && s.m in Active(A, merges, base, |merges|)
    requires s.n < |dl| && s.m < |dl| && dl2 == dl[s.n := base + |merges|][s.m := base + |merges|] && |h2| == |h|
    requires h2[HEAP_SIZE - 1 - 2 * |merges|] == s.n && h2[HEAP_SIZE - 2 - 2 * |merges|] == s.m
    requires forall p :: HEAP_SIZE - 1 - 2 * |merges| < p < HEAP_SIZE ==> h2[p] == h[p]
    ensures Recorded(h2, dl2, merges + [s], base)
  {
    var more := merges + [s];
    forall i: nat | i < |more| ensures RecordedAt(h2, dl2, more, base, i) {
      if i < |merges| {
        assert RecordedAt(h, dl, merges, base, i);
        Gone(A, f, merges, base, i, |merges|);
      }
    }
  }

  lemma {:induction false} FallingNext(h: seq<nat>, f: seq<nat>, B: set<nat>, k: nat, h2: seq<nat>, g: seq<nat>,
      s: Sons, node: nat)
    requires 2 * k + 2 <= HEAP_SIZE && Falling(h, f, HEAP_SIZE - 2 * k, node) && |h2| == HEAP_SIZE && Nodes(B, node)
        && node < |f| == |g|
    requires Least(B, f, s.n, s.m) && (forall x :: 0 <= x < |f| && x != node ==> f[x] == g[x])
        && g[node] == f[s.n] + f[s.m]
    requires k > 0 ==> forall x :: x in B ==> f[h[HEAP_SIZE - 2 * k]] <= f[x]
    requires forall p :: HEAP_SIZE - 2 * k <= p < HEAP_SIZE ==> h2[p] == h[p]
    requires h2[HEAP_SIZE - 1 - 2 * k] == s.n && h2[HEAP_SIZE - 2 - 2 * k] == s.m
    ensures Falling(h2, g, HEAP_SIZE - 2 * (k + 1), node + 1)
    ensures forall x :: x in Merge(B, s.n, s.m, node) ==> x < |g| && g[h2[HEAP_SIZE - 2 * (k + 1)]] <= g[x]
  {
  }

  lemma {:induction false} MergeBag(B: set<nat>, n: nat, m: nat, node: nat)
    requires n in B && m in B && n != m && node !in B
    ensures multiset(B - {n}) - multiset{m} + multiset{node} == multiset(Merge(B, n, m, node))
  {
    SetMinus(B - {n}, m);
    assert B - {n} - {m} + {node} == Merge(B, n, m, node);
    SetPlus(B - {n} - {m}, node);
  }

  /** Nothing behind the heap matters to it. */
  lemma {:induction false} KeepHeap(h: seq<nat>, g: seq<nat>, len: nat, f: seq<nat>, depth: seq<nat>, n: nat)
    requires NodesIn(h, len, |f|) && |f| <= |depth| && NodesIn(h, len, n) && |g| == |h| && forall i ::
        1 <= i <= len ==> g[i] == h[i]
    ensures NodesIn(g, len, |f|) && NodesIn(g, len, n) && Bag(g, len) == Bag(h, len)
    ensures HeapFrom(h, len, f, depth, 1) ==> HeapFrom(g, len, f, depth, 1)
  {
    assert g[1..len + 1] == h[1..len + 1];
    if HeapFrom(h, len, f, depth, 1) {
      forall p: nat | 1 <= p ensures Down(g, len, f, depth, p) {
        assert Down(h, len, f, depth, p);
      }
    }
  }

  // ---- the finished heap array ----

  /** The father of the node at place q of the finished heap array. */
  function Father(base: nat, q: nat): nat
    requires q < HEAP_SIZE
  {
    base + (HEAP_SIZE - 1 - q) / 2
  }

  /** From first on, the array holds every symbol of A and every father but the root once, each
      before its own sons. */
  ghost predicate Layout(h: seq<nat>, first: nat, base: nat, A: set<nat>) {
    && |h| == HEAP_SIZE && first <= HEAP_SIZE
    && (forall q :: first <= q < HEAP_SIZE ==> h[q] < Father(base, q))
    && (forall p, q :: first <= p < q < HEAP_SIZE ==> h[p] != h[q])
    && (forall q :: first <= q < HEAP_SIZE && h[q] < base ==> h[q] in A)
    && (forall x :: x in A ==> x in h[first..])
    && (forall q: nat ::
      first <= q < HEAP_SIZE
      ==> Father(base, q) == Father(base, first) || Father(base, q) in h[first..q])
  }

  function SonAt(merges: seq<Sons>, q: nat): nat
    requires HEAP_SIZE - 2 * |merges| <= q < HEAP_SIZE
  {
    var s := merges[(HEAP_SIZE - 1 - q) / 2];
    if (HEAP_SIZE - 1 - q) % 2 == 0 then s.n else s.m
  }

  lemma {:induction false} PlaceOf(h: seq<nat>, dl: seq<nat>, merges: seq<Sons>, base: nat, q: nat)
    requires Recorded(h, dl, merges, base) && HEAP_SIZE - 2 * |merges| <= q < HEAP_SIZE
    ensures h[q] == SonAt(merges, q) && h[q] < |dl| && dl[h[q]] == Father(base, q)
  {
    var i := (HEAP_SIZE - 1 - q) / 2;
    assert RecordedAt(h, dl, merges, base, i);
  }

  lemma {:induction false} SonsApart(A: set<nat>, f: seq<nat>, merges: seq<Sons>, base: nat, p: nat, q: nat)
    requires Merged(A, f, merges, base) && HEAP_SIZE - 2 * |merges| <= p < q < HEAP_SIZE
    ensures SonAt(merges, p) != SonAt(merges, q) && SonAt(merges, q) < Father(base, q)
  {
    var i, j := (HEAP_SIZE - 1 - p) / 2, (HEAP_SIZE - 1 - q) / 2;
    assert MergedAt(A, f, merges, base, i) && MergedAt(A, f, merges, base, j);
    if j < i { Gone(A, f, merges, base, j, i); }
  }

  /** A symbol that is a son is one of the symbols. */
  lemma {:induction false} SonIsSymbol(A: set<nat>, f: seq<nat>, merges: seq<Sons>, base: nat, k: nat, x: nat)
    requires Merged(A, f, merges, base) && k <= |merges| && x in Active(A, merges, base, k) && x < base
    ensures x in A
    decreases k
  {
    if k > 0 { SonIsSymbol(A, f, merges, base, k - 1, x); }
  }

  lemma {:induction false} LaidOut(h: seq<nat>, f: seq<nat>, dl: seq<nat>, A: set<nat>, merges: seq<Sons>, base: nat)
    requires Merged(A, f, merges, base) && Recorded(h, dl, merges, base)
    requires |merges| > 0 && Active(A, merges, base, |merges|) == {base + |merges| - 1}
    ensures Layout(h, HEAP_SIZE - 2 * |merges|, base, A)
    ensures forall q :: HEAP_SIZE - 2 * |merges| <= q < HEAP_SIZE ==> h[q] < |dl| && dl[h[q]] == Father(base, q)
  {
    assert |h| == HEAP_SIZE && 2 * |merges| <= HEAP_SIZE;
    hide Merged, Recorded;
    var first: nat := HEAP_SIZE - 2 * |merges|;
    forall q | first <= q < HEAP_SIZE
      ensures h[q] < |dl| && dl[h[q]] == Father(base, q) && h[q] < Father(base, q) && (h[q] < base ==> h[q] in A)
    {
      PlaceOf(h, dl, merges, base, q);
      SonBelow(A, f, merges, base, q);
    }
    forall p, q | first <= p < q < HEAP_SIZE ensures h[p] != h[q] {
      PlaceOf(h, dl, merges, base, p);
      PlaceOf(h, dl, merges, base, q);
      SonsApart(A, f, merges, base, p, q);
    }
    forall x | x in A ensures x in h[first..] {
      var i := HasFather(A, merges, base, 0, |merges|, x);
      var q := if merges[i].n == x then HEAP_SIZE - 1 - 2 * i else HEAP_SIZE - 2 - 2 * i;
      PlaceOf(h, dl, merges, base, q);
      assert h[first..][q - first] == x;
    }
    forall q: nat | first <= q < HEAP_SIZE
        ensures Father(base, q) == Father(base, first) || Father(base, q) in h[first..q] {
      if Father(base, q) != Father(base, first) {
        var p := FatherPlaced(A, f, merges, base, q);
        PlaceOf(h, dl, merges, base, p);
        assert h[first..q][p - first] == Father(base, q);
      }
    }
  }

  /** Every father but the last has a place before its sons. */
  lemma {:induction false} FatherPlaced(A: set<nat>, f: seq<nat>, merges: seq<Sons>, base: nat, q: nat) returns (p: nat)
    requires Merged(A, f, merges, base) && |merges| > 0 && Active(A, merges, base, |merges|) == {base + |merges| - 1}
    requires 0 <= HEAP_SIZE - 2 * |merges| <= q < HEAP_SIZE && Father(base, q) != base + |merges| - 1
    ensures HEAP_SIZE - 2 * |merges| <= p < q && SonAt(merges, p) == Father(base, q)
  {
    var i := (HEAP_SIZE - 1 - q) / 2;
    ActiveNext(A, merges, base, i);
    var j := HasFather(A, merges, base, i + 1, |merges|, base + i);
    p := if merges[j].n == base + i then HEAP_SIZE - 1 - 2 * j else HEAP_SIZE - 2 - 2 * j;
  }

  lemma {:induction false} SonBelow(A: set<nat>, f: seq<nat>, merges: seq<Sons>, base: nat, q: nat)
    requires Merged(A, f, merges, base) && HEAP_SIZE - 2 * |merges| <= q < HEAP_SIZE
    ensures SonAt(merges, q) < Father(base, q) && (SonAt(merges, q) < base ==> SonAt(merges, q) in A)
  {
    var i := (HEAP_SIZE - 1 - q) / 2;
    assert MergedAt(A, f, merges, base, i);
    if SonAt(merges, q) < base { SonIsSymbol(A, f, merges, base, i, SonAt(merges, q)); }
  }

  // ---- lengths from fathers ----

  /** The nodes at places first.. have their lengths up to place at, and their fathers from there. */
  ghost predicate Lengths(h: seq<nat>, first: nat, base: nat, l0: seq<nat>, l: seq<nat>, max: nat, at: nat)
    requires |h| == HEAP_SIZE && first <= at <= HEAP_SIZE
  {
    && |l| == |l0| && base + (HEAP_SIZE - first + 1) / 2 <= |l|
    && (forall q :: first <= q < HEAP_SIZE ==> h[q] < |l|)
    && (forall q :: first <= q < at ==> l[h[q]] == Clip(l[Father(base, q)] + 1, max))
    && (forall q :: at <= q < HEAP_SIZE ==> l[h[q]] == Father(base, q))
    && (forall x :: 0 <= x < |l| && x !in h[first..] ==> l[x] == l0[x])
  }

  /** At how many of the places first..at the father already has the greatest length. */
  ghost function Clipped(l: seq<nat>, base: nat, max: nat, first: nat, at: nat): nat
    requires first <= at <= HEAP_SIZE && base + (HEAP_SIZE - first + 1) / 2 <= |l|
  {
    if at == first then 0
    else Clipped(l, base, max, first, at - 1) + if l[Father(base, at - 1)] == max then 1 else 0
  }

  lemma {:induction false} ClippedSame(l: seq<nat>, m: seq<nat>, base: nat, max: nat, first: nat, at: nat)
    requires first <= at <= HEAP_SIZE && base + (HEAP_SIZE - first + 1) / 2 <= |l| == |m|
    requires forall q :: first <= q < at ==> l[Father(base, q)] == m[Father(base, q)]
    ensures Clipped(l, base, max, first, at) == Clipped(m, base, max, first, at)
    decreases at
  {
    if at > first { ClippedSame(l, m, base, max, first, at - 1); }
  }

  /** Two sons for each father. */
  lemma {:induction false} ClippedTwice(l: seq<nat>, base: nat, max: nat, first: nat, k: nat, n: nat)
    requires first + 2 * n == HEAP_SIZE && k <= n && base + n <= |l|
    ensures Clipped(l, base, max, first, HEAP_SIZE - 2 * k) == 2 * Over(l, base, max, k, n)
    decreases n - k
  {
    if k < n {
      ClippedTwice(l, base, max, first, k + 1, n);
      var at := HEAP_SIZE - 2 * k;
      assert Father(base, at - 1) == base + k && Father(base, at - 2) == base + k;
    }
  }

  /** A node is not the father of any node placed before it. */
  lemma {:induction false} NoFatherYet(h: seq<nat>, first: nat, base: nat, A: set<nat>, at: nat)
    requires Layout(h, first, base, A) && first <= at < HEAP_SIZE
    ensures |h| == HEAP_SIZE && h[at] < Father(base, at)
    ensures forall q {:trigger Father(base, q)} :: first <= q <= at ==> h[at] < Father(base, q)
    ensures forall q {:trigger h[q]} :: first <= q < HEAP_SIZE && q != at ==> h[q] != h[at]
  {
  }

  lemma {:induction false} LengthsNext(h: seq<nat>, first: nat, base: nat, A: set<nat>, l0: seq<nat>, l: seq<nat>,
      max: nat, at: nat)
    requires Layout(h, first, base, A) && first <= at < HEAP_SIZE && Lengths(h, first, base, l0, l, max, at)
    ensures l[h[at]] == Father(base, at) < |l|
    ensures Lengths(h, first, base, l0, l[h[at] := Clip(l[Father(base, at)] + 1, max)], max, at + 1)
  {
    NoFatherYet(h, first, base, A, at);
    hide Layout, Clip;
    var m := l[h[at] := Clip(l[Father(base, at)] + 1, max)];
    forall q | first <= q <= at ensures m[h[q]] == Clip(m[Father(base, q)] + 1, max) {
      if q < at { assert l[h[q]] == Clip(l[Father(base, q)] + 1, max); }
    }
    hide Father;
    assert h[first..][at - first] == h[at];
    forall q | at + 1 <= q < HEAP_SIZE ensures m[h[q]] == Father(base, q) {
    }
  }

  lemma {:induction false} ClippedNext(h: seq<nat>, first: nat, base: nat, A: set<nat>, l: seq<nat>, v: nat,
      max: nat, at: nat)
    requires Layout(h, first, base, A) && first <= at < HEAP_SIZE && h[at] < |l|
        && base + (HEAP_SIZE - first + 1) / 2 <= |l|
    ensures Clipped(l[h[at] := v], base, max, first, at + 1) == Clipped(l, base, max, first, at)
        + if l[Father(base, at)] == max then 1 else 0
  {
    NoFatherYet(h, first, base, A, at);
    hide Layout;
    ClippedSame(l, l[h[at] := v], base, max, first, at);
  }

  /** No node that has its length is longer than max, and no father that matters. */
  lemma {:induction false} FatherClipped(h: seq<nat>, first: nat, base: nat, A: set<nat>, l0: seq<nat>, l: seq<nat>,
      max: nat, at: nat)
    requires Layout(h, first, base, A) && first <= at < HEAP_SIZE && Lengths(h, first, base, l0, l, max, at)
    requires l0[Father(base, first)] == 0
    ensures l[Father(base, at)] <= max
  {
    var x := Father(base, at);
    if x in h[first..at] {
      var i :| 0 <= i < |h[first..at]| && h[first..at][i] == x;
      assert h[first + i] == x;
    } else {
      assert x == Father(base, first);
      assert x !in h[first..];
    }
  }

  lemma {:induction false} SymbolOrNot(h: seq<nat>, first: nat, base: nat, A: set<nat>, at: nat, max_code: int)
    requires Layout(h, first, base, A) && first <= at < HEAP_SIZE && max_code < base && forall x :: x in A ==>
        x <= max_code
    ensures h[at] > max_code <==> h[at] >= base
  {
  }

  /** The symbols at places p..q. */
  ghost function Leaves(h: seq<nat>, p: nat, q: nat, base: nat): set<nat>
    requires p <= q <= |h|
  {
    set x | x in h[p..q] && x < base
  }

  lemma {:induction false} LeavesNext(h: seq<nat>, p: nat, q: nat, base: nat)
    requires p <= q < |h| && forall i :: p <= i < q ==> h[i] != h[q]
    ensures h[q] !in Leaves(h, p, q, base)
    ensures Leaves(h, p, q + 1, base) == if h[q] < base then Leaves(h, p, q, base) + {h[q]} else Leaves(h, p, q, base)
  {
    assert h[p..q + 1] == h[p..q] + [h[q]];
  }

  lemma {:induction false} LeavesAll(h: seq<nat>, first: nat, base: nat, A: set<nat>)
    requires Layout(h, first, base, A) && Nodes(A, base)
    ensures Leaves(h, first, HEAP_SIZE, base) == A
    ensures forall q: nat :: first <= q <= HEAP_SIZE ==> Leaves(h, first, q, base) <= A
  {
    assert h[first..HEAP_SIZE] == h[first..];
    forall x | x in h[first..] && x < base ensures x in A {
      var q :| 0 <= q < |h[first..]| && h[first..][q] == x;
      assert h[first + q] == x;
    }
    forall q: nat, x | first <= q <= HEAP_SIZE && x in Leaves(h, first, q, base) ensures x in A {
      var i :| 0 <= i < |h[first..q]| && h[first..q][i] == x;
      assert h[first..][i] == x;
    }
  }

  /** The extra bits of every node, and its length in the static tree. */
  ghost function ExtraOf(k: Kind, n: nat): (w: seq<nat>)
    ensures |w| == n && forall i :: 0 <= i < n ==> w[i] == XBits(k, i)
  {
    seq(n, i requires 0 <= i < n => XBits(k, i))
  }

  ghost function StaticOf(k: Kind, n: nat): (w: seq<nat>)
    ensures |w| == n && forall i :: 0 <= i < n ==> w[i] == StaticLen(k, i)
  {
    seq(n, i requires 0 <= i < n => StaticLen(k, i))
  }

  lemma {:induction false} TimesSum(a: nat, b: nat, c: nat)
    ensures a * (b + c) == Times(a, b) + Times(a, c)
  {
    assert a * (b + c) == a * b + a * c;
  }

  lemma {:induction false} LeavesStart(h: seq<nat>, first: nat, base: nat)
    requires first <= |h|
    ensures Leaves(h, first, first, base) == {}
  {
  }

  /** From place h on, symbols have lengths of at least bits, never longer before a less
      frequent one; as many of each length as counted, but for left of length bits. */
  ghost predicate AssignedOk(h: seq<nat>, f: seq<nat>, first: nat, at: nat, base: nat, c: seq<nat>, bits: nat,
      left: nat, l: seq<nat>)
    requires |h| == HEAP_SIZE && first <= at <= HEAP_SIZE && bits < 16 == |c| && base <= |l|
  {
    var V := Leaves(h, at, HEAP_SIZE, base);
    && left <= c[bits]
    && (forall b :: 0 <= b < 16 ==> CountOf(V, l, b) == if b > bits then c[b] else if b == bits then c[b] - left else 0)
    && (forall q :: at <= q < HEAP_SIZE && h[q] < base ==> bits <= l[h[q]] < 16)
    && (forall p, q :: at <= p < q < HEAP_SIZE && h[p] < base && h[q] < base ==> l[h[p]] <= l[h[q]])
  }

  lemma {:induction false} LeavesBefore(h: seq<nat>, at: nat, base: nat)
    requires |h| == HEAP_SIZE && at < HEAP_SIZE && forall q :: at < q < HEAP_SIZE ==> h[q] != h[at]
    ensures h[at] !in Leaves(h, at + 1, HEAP_SIZE, base) && Nodes(Leaves(h, at + 1, HEAP_SIZE, base), base)
    ensures Leaves(h, at, HEAP_SIZE, base) == if h[at] < base then Leaves(h, at + 1, HEAP_SIZE, base) + {h[at]}
        else Leaves(h, at + 1, HEAP_SIZE, base)
  {
    assert h[at..HEAP_SIZE] == [h[at]] + h[at + 1..HEAP_SIZE];
  }

  lemma {:induction false} AssignedStart(h: seq<nat>, f: seq<nat>, first: nat, base: nat, c: seq<nat>, bits: nat,
      l: seq<nat>)
    requires |h| == HEAP_SIZE && first <= HEAP_SIZE && bits < 16 == |c| && base <= |l| && forall b ::
        bits < b < 16 ==> c[b] == 0
    ensures AssignedOk(h, f, first, HEAP_SIZE, base, c, bits, c[bits], l)
  {
    assert Leaves(h, HEAP_SIZE, HEAP_SIZE, base) == {};
  }

  /** A node that is no symbol is passed over. */
  lemma {:induction false} AssignedSkip(h: seq<nat>, f: seq<nat>, first: nat, at: nat, base: nat, A: set<nat>,
      c: seq<nat>, bits: nat, left: nat, l: seq<nat>)
    requires Layout(h, first, base, A) && first <= at < HEAP_SIZE && bits < 16 == |c| && base <= |l| && h[at] >= base
    requires AssignedOk(h, f, first, at + 1, base, c, bits, left, l)
    ensures AssignedOk(h, f, first, at, base, c, bits, left, l)
        && Leaves(h, at, HEAP_SIZE, base) == Leaves(h, at + 1, HEAP_SIZE, base)
  {
    NoFatherYet(h, first, base, A, at);
    LeavesBefore(h, at, base);
    hide Layout, CountOf, Leaves;
  }

  /** The next symbol takes one of the codes of length bits. */
  lemma {:induction false} AssignedOne(h: seq<nat>, f: seq<nat>, first: nat, at: nat, base: nat, A: set<nat>,
      c: seq<nat>, bits: nat, left: nat, l: seq<nat>)
    requires Layout(h, first, base, A) && first <= at < HEAP_SIZE && bits < 16 == |c| && base <= |l| && h[at] < base
        && left > 0
    requires AssignedOk(h, f, first, at + 1, base, c, bits, left, l)
    ensures AssignedOk(h, f, first, at, base, c, bits, left - 1, l[h[at] := bits])
  {
    hide Layout, Leaves, CountOf, Father;
    NoFatherYet(h, first, base, A, at);
    LeavesBefore(h, at, base);
    CountOneMore(Leaves(h, at + 1, HEAP_SIZE, base), l, h[at], bits);
    assert Leaves(h, at, HEAP_SIZE, base) == Leaves(h, at + 1, HEAP_SIZE, base) + {h[at]};
    var m, V := l[h[at] := bits], Leaves(h, at + 1, HEAP_SIZE, base);
    forall b | 0 <= b < 16
      ensures CountOf(V + {h[at]}, m, b) == if b > bits then c[b] else if b == bits then c[b] - (left - 1) else 0
    {
      assert CountOf(V + {h[at]}, m, b) == CountOf(V, l, b) + if b == bits then 1 else 0;
      assert CountOf(V, l, b) == if b > bits then c[b] else if b == bits then c[b] - left else 0;
    }
  }

  lemma {:induction false} CountOneMore(V: set<nat>, l: seq<nat>, x: nat, bits: nat)
    requires Nodes(V, |l|) && x !in V && x < |l| && bits < 16
    ensures forall b :: 0 <= b < 16 ==>
                CountOf(V + {x}, l[x := bits], b) == CountOf(V, l, b) + if b == bits then 1 else 0
  {
    var m := l[x := bits];
    forall b | 0 <= b < 16 ensures CountOf(V + {x}, m, b) == CountOf(V, l, b) + if b == bits then 1 else 0 {
      SumSame(V, OfLength(m, b), OfLength(l, b));
      SumAdd(V, OfLength(m, b), x);
    }
  }

  lemma {:induction false} TotalLess(c: seq<nat>, e: seq<nat>, b: nat, i: nat)
    requires b < |c| && b < |e| && (forall j :: 0 <= j <= b ==> c[j] <= e[j])
    ensures Total(c, b) <= Total(e, b)
    ensures i <= b && c[i] < e[i] ==> Total(c, b) < Total(e, b)
  {
    if b > 0 { TotalLess(c, e, b - 1, i); }
  }

  /** While codes are left, there is a symbol that has none. */
  lemma {:induction false} SymbolLeft(h: seq<nat>, f: seq<nat>, first: nat, at: nat, base: nat, A: set<nat>,
      c: seq<nat>, bits: nat, left: nat, l: seq<nat>)
    requires Layout(h, first, base, A) && Nodes(A, base) && first <= at <= HEAP_SIZE && bits < 16 == |c|
        && base <= |l| && left > 0
    requires AssignedOk(h, f, first, at, base, c, bits, left, l) && Total(c, 15) == |A|
    ensures at > first
  {
    if at == first {
      LeavesAll(h, first, base, A);
      var e: seq<nat> := seq(16, b requires 0 <= b < 16 => CountOf(A, l, b));
      LengthBound(h, first, base, A, l);
      CountsTell(A, l, e, 15);
      TotalLess(e, c, 15, bits);
    }
  }

  lemma {:induction false} LengthBound(h: seq<nat>, first: nat, base: nat, A: set<nat>, l: seq<nat>)
    requires Layout(h, first, base, A) && Nodes(A, |l|) && base <= |l| && Nodes(A, base)
    requires forall q :: first <= q < HEAP_SIZE && h[q] < base ==> l[h[q]] < 16
    ensures forall x :: x in A ==> l[x] <= 15
  {
    forall x | x in A ensures l[x] <= 15 {
      var i :| 0 <= i < |h[first..]| && h[first..][i] == x;
      assert h[first + i] == x;
    }
  }

  /** No code is left of any length: the symbols have the counted lengths. */
  lemma {:induction false} AllAssigned(h: seq<nat>, f: seq<nat>, first: nat, at: nat, base: nat, A: set<nat>,
      c: seq<nat>, l: seq<nat>)
    requires Layout(h, first, base, A) && Nodes(A, base) && first <= at <= HEAP_SIZE && |c| == 16 && base <= |l|
    requires AssignedOk(h, f, first, at, base, c, 0, 0, l) && Total(c, 15) == |A|
    ensures Leaves(h, at, HEAP_SIZE, base) == A && Counted(A, l, c)
  {
    var V := Leaves(h, at, HEAP_SIZE, base);
    PartOf(h, first, at, base, A);
    LeafBound(h, at, base, l);
    CountsTell(V, l, c, 15);
    SubsetSize(V, A);
  }

  lemma {:induction false} PartOf(h: seq<nat>, first: nat, at: nat, base: nat, A: set<nat>)
    requires Layout(h, first, base, A) && first <= at <= HEAP_SIZE
    ensures Leaves(h, at, HEAP_SIZE, base) <= A
  {
    forall x | x in Leaves(h, at, HEAP_SIZE, base) ensures x in A {
      var i :| 0 <= i < |h[at..HEAP_SIZE]| && h[at..HEAP_SIZE][i] == x;
      assert h[at + i] == x;
    }
  }

  lemma {:induction false} LeafBound(h: seq<nat>, at: nat, base: nat, l: seq<nat>)
    requires |h| == HEAP_SIZE && at <= HEAP_SIZE && base <= |l|
    requires forall q :: at <= q < HEAP_SIZE && h[q] < base ==> l[h[q]] < 16
    ensures forall x :: x in Leaves(h, at, HEAP_SIZE, base) ==> l[x] <= 15
  {
    forall x | x in Leaves(h, at, HEAP_SIZE, base) ensures l[x] <= 15 {
      var i :| 0 <= i < |h[at..HEAP_SIZE]| && h[at..HEAP_SIZE][i] == x;
      assert h[at + i] == x;
    }
  }

  lemma {:induction false} SubsetSize(V: set<nat>, A: set<nat>)
    requires V <= A && |V| == |A|
    ensures V == A
  {
    if x :| x in A && x !in V {
      SubsetSmaller(V, A - {x});
    }
  }

  lemma {:induction false} SubsetSmaller(V: set<nat>, A: set<nat>)
    requires V <= A
    ensures |V| <= |A|
    decreases |V|
  {
    if x :| x in V { SubsetSmaller(V - {x}, A - {x}); }
  }

  lemma {:induction false} CostOne(V: set<nat>, f: seq<nat>, l: seq<nat>, l1: seq<nat>, x: nat, v: nat)
    requires Nodes(V, |l|) && |f| == |l| == |l1| && x !in V && x < |l|
    ensures Nodes(V + {x}, |l|) && Cost(V + {x}, f, l[x := v]) == Cost(V, f, l) + f[x] * v
    ensures Cost(V + {x}, f, l1) == Cost(V, f, l1) + f[x] * l1[x]
    ensures (v - l1[x]) * f[x] == f[x] * v - f[x] * l1[x]
  {
    SumSame(V, Weighted(f, l[x := v]), Weighted(f, l));
    SumAdd(V, Weighted(f, l[x := v]), x);
    SumAdd(V, Weighted(f, l1), x);
  }

  lemma {:induction false} NoLeaves(h: seq<nat>, base: nat)
    requires |h| == HEAP_SIZE
    ensures Leaves(h, HEAP_SIZE, HEAP_SIZE, base) == {}
  {
  }

  lemma {:induction false} TotalAll(c: seq<nat>, max: nat, size: nat)
    requires RepairOk(c, max, 0, size)
    ensures Total(c, 15) == size
  {
    TotalFlat(c, max, 15);
  }

  lemma {:induction false} TotalFlat(c: seq<nat>, a: nat, b: nat)
    requires a <= b < |c| && forall i :: a < i <= b ==> c[i] == 0
    ensures Total(c, b) == Total(c, a)
    decreases b
  {
    if a < b { TotalFlat(c, a, b - 1); }
  }

  /** All codes of length bits are given away: go on with the next length. */
  lemma {:induction false} NextLength(h: seq<nat>, f: seq<nat>, first: nat, at: nat, base: nat, c: seq<nat>,
      bits: nat, l: seq<nat>)
    requires |h| == HEAP_SIZE && first <= at <= HEAP_SIZE && 0 < bits < 16 == |c| && base <= |l|
    requires AssignedOk(h, f, first, at, base, c, bits, 0, l)
    ensures AssignedOk(h, f, first, at, base, c, bits - 1, c[bits - 1], l)
  {
    hide Leaves, CountOf;
  }

  lemma {:induction false} CountedRange(A: set<nat>, l: seq<nat>, c: seq<nat>, max: nat)
    requires Counted(A, l, c) && |c| == 16 && max < 16 && c[0] == 0 && forall b :: max < b < 16 ==> c[b] == 0
    requires forall x :: x in A ==> l[x] <= 15
    ensures forall x :: x in A ==> 1 <= l[x] <= max
  {
    forall x | x in A ensures 1 <= l[x] <= max {
      CountHas(A, l, x);
    }
  }

  lemma {:induction false} AssignedBound(h: seq<nat>, f: seq<nat>, first: nat, at: nat, base: nat, A: set<nat>,
      c: seq<nat>, l: seq<nat>)
    requires |h| == HEAP_SIZE && first <= at <= HEAP_SIZE && |c| == 16 && base <= |l| && Nodes(A, base)
    requires AssignedOk(h, f, first, at, base, c, 0, 0, l) && Leaves(h, at, HEAP_SIZE, base) == A
    ensures forall x :: x in A ==> l[x] <= 15
  {
    LeafBound(h, at, base, l);
  }

  /** Every symbol has a place from at on, so what is known of these holds of all places. */
  lemma {:induction false} AssignedOrder(h: seq<nat>, f: seq<nat>, first: nat, at: nat, base: nat, A: set<nat>,
      c: seq<nat>, l: seq<nat>)
    requires Layout(h, first, base, A) && first <= at <= HEAP_SIZE && |c| == 16 && base <= |l|
    requires AssignedOk(h, f, first, at, base, c, 0, 0, l) && Leaves(h, at, HEAP_SIZE, base) == A
    ensures forall q :: first <= q < at ==> h[q] >= base
    ensures forall p, q :: first <= p < q < HEAP_SIZE && h[p] < base && h[q] < base ==> l[h[p]] <= l[h[q]]
  {
    forall q | first <= q < at ensures h[q] >= base {
    }
  }

  /** The lengths of a complete prefix code, none above max, and the more frequent of two
      symbols never has the longer code. */
  ghost predicate GoodLengths(A: set<nat>, f: seq<nat>, l: seq<nat>, max: nat) {
    && |f| == |l| && Nodes(A, |l|) && (forall x :: x in A ==> 1 <= l[x] <= max)
    && Kraft(A, l, max) == Pow2(max)
    && forall x, y :: x in A && y in A && f[x] < f[y] ==> l[y] <= l[x]
  }

  /** No prefix code takes fewer bits. */
  ghost predicate Cheapest(A: set<nat>, f: seq<nat>, l: seq<nat>)
    requires |f| == |l| && Nodes(A, |l|)
  {
    forall l2: seq<nat>, d: nat :: |l2| == |l| && Feasible(A, l2, d) ==> Cost(A, f, l) <= Cost(A, f, l2)
  }

  /** What the symbols of A take in the static tree, extra bits included. */
  ghost function StaticCost(k: Kind, A: set<nat>, f: seq<nat>): nat
    requires Nodes(A, |f|)
  {
    if k == BLTREE then 0 else Cost(A, f, StaticOf(k, |f|)) + Cost(A, f, ExtraOf(k, |f|))
  }

  lemma {:induction false} StartLengths(h: seq<nat>, f: seq<nat>, dl: seq<nat>, A: set<nat>, merges: seq<Sons>,
      base: nat, max: nat)
    requires Merged(A, f, merges, base) && Recorded(h, dl, merges, base) && |merges| > 0 && 2 * |merges| < HEAP_SIZE
        && |dl| == |f|
    requires Active(A, merges, base, |merges|) == {base + |merges| - 1}
    ensures var first := HEAP_SIZE - 2 * |merges|;
            var l := dl[base + |merges| - 1 := 0];
            Lengths(h, first, base, l, l, max, first) && Father(base, first) == base + |merges| - 1 &&
            base + |merges| - 1 !in A && l[Father(base, first)] == 0
  {
    LaidOut(h, f, dl, A, merges, base);
  }

  lemma {:induction false} PassedHangs(h: seq<nat>, l0: seq<nat>, l: seq<nat>, merges: seq<Sons>, base: nat,
      max: nat, dl: seq<nat>)
    requires Recorded(h, dl, merges, base) && |merges| > 0 && 2 * |merges| < HEAP_SIZE && max >= 1
    requires Lengths(h, HEAP_SIZE - 2 * |merges|, base, l0, l, max, HEAP_SIZE)
    requires l0[base + |merges| - 1] == 0 && base + |merges| - 1 !in h[HEAP_SIZE - 2 * |merges|..]
    ensures Hangs(l, merges, base, max)
  {
    hide Clip, Lengths, Father;
    RootLength(h, l0, l, HEAP_SIZE - 2 * |merges|, base, max, base + |merges| - 1);
    forall i: nat | i < |merges| ensures HangsAt(l, merges, base, max, i) {
      assert RecordedAt(h, dl, merges, base, i);
      FatherOf(base, i);
      SonLength(h, l0, l, HEAP_SIZE - 2 * |merges|, base, max, HEAP_SIZE - 1 - 2 * i);
      SonLength(h, l0, l, HEAP_SIZE - 2 * |merges|, base, max, HEAP_SIZE - 2 - 2 * i);
    }
  }

  lemma {:induction false} RootLength(h: seq<nat>, l0: seq<nat>, l: seq<nat>, first: nat, base: nat, max: nat, x: nat)
    requires |h| == HEAP_SIZE && first <= HEAP_SIZE && Lengths(h, first, base, l0, l, max, HEAP_SIZE)
    ensures |l| == |l0| && base + (HEAP_SIZE - first + 1) / 2 <= |l| && (x < |l| && x !in h[first..] ==> l[x] == l0[x])
  {
    hide Clip, Father;
  }

  lemma {:induction false} FatherOf(base: nat, i: nat)
    requires 2 * i + 2 <= HEAP_SIZE
    ensures Father(base, HEAP_SIZE - 1 - 2 * i) == base + i == Father(base, HEAP_SIZE - 2 - 2 * i)
  {
  }

  lemma {:induction false} SonLength(h: seq<nat>, l0: seq<nat>, l: seq<nat>, first: nat, base: nat, max: nat, q: nat)
    requires |h| == HEAP_SIZE && first <= q < HEAP_SIZE && Lengths(h, first, base, l0, l, max, HEAP_SIZE)
    ensures h[q] < |l| && Father(base, q) < |l| && l[h[q]] == Clip(l[Father(base, q)] + 1, max)
  {
    hide Clip;
  }

  lemma {:induction false} CountZero(A: set<nat>, l: seq<nat>, v: nat)
    requires Nodes(A, |l|) && forall x :: x in A ==> l[x] != v
    ensures CountOf(A, l, v) == 0
    decreases |A|
  {
    if A != {} {
      var x :| x in A;
      SumRemove(A, OfLength(l, v), x);
      CountZero(A - {x}, l, v);
    }
  }

  /** Symbols have a father, so their lengths are not zero. */
  lemma {:induction false} PassedRange(h: seq<nat>, first: nat, base: nat, A: set<nat>, l0: seq<nat>, l: seq<nat>,
      max: nat)
    requires Layout(h, first, base, A) && Lengths(h, first, base, l0, l, max, HEAP_SIZE) && max >= 1 && Nodes(A, |l|)
    ensures forall x :: x in A ==> 1 <= l[x] <= max
  {
    forall x | x in A ensures 1 <= l[x] <= max {
      var i :| 0 <= i < |h[first..]| && h[first..][i] == x;
      assert h[first + i] == x;
    }
  }

  /** What the first pass leaves: the cheapest code, or counts to repair. */
  lemma {:induction false} PassedLengths(h: seq<nat>, f: seq<nat>, dl: seq<nat>, l0: seq<nat>, l: seq<nat>,
      A: set<nat>, merges: seq<Sons>,
                                         base: nat, max: nat, c: seq<nat>, overflow: nat)
    requires Merged(A, f, merges, base) && Recorded(h, dl, merges, base) && |merges| > 0 && 2 * |merges| < HEAP_SIZE
    requires Active(A, merges, base, |merges|) == {base + |merges| - 1} && |dl| == |f| == |l| && 1 <= max < 16 == |c|
    requires Layout(h, HEAP_SIZE - 2 * |merges|, base, A) && l0 == dl[base + |merges| - 1 := 0]
    requires Lengths(h, HEAP_SIZE - 2 * |merges|, base, l0, l, max, HEAP_SIZE) && Counted(A, l, c)
    requires overflow == Clipped(l, base, max, HEAP_SIZE - 2 * |merges|, HEAP_SIZE)
    ensures overflow % 2 == 0
    ensures overflow == 0 ==> GoodLengths(A, f, l, max) && Cheapest(A, f, l) && AtDepth(A, merges, base, l)
    ensures overflow > 0 <==> Deep(A, merges, base, max)
    ensures overflow > 0 ==> RepairOk(c, max, overflow / 2, |A|)
  {
    hide Clipped, Cost, Kraft, Pow2, Over, CountOf, Layout, Lengths, Recorded, Hangs, Merged, Space, Total,
         GoodLengths, Cheapest, Deep;
    var first: nat := HEAP_SIZE - 2 * |merges|;
    FewMerges(A, f, merges, base);
    RootApart(h, first, base, A, base + |merges| - 1);
    PassedHangs(h, l0, l, merges, base, max, dl);
    ClippedTwice(l, base, max, first, 0, |merges|);
    TreeKraft(A, f, merges, base, l, max, 0);
    PassedRange(h, first, base, A, l0, l, max);
    CountsTell(A, l, c, max);
    CountsZero(A, l, c, max);
    OverIsDeep(A, f, merges, base, l, max);
    if overflow == 0 {
      PassedCheapest(f, l, A, merges, base, max);
      ShallowLengths(A, f, merges, base, l, max);
    }
  }

  lemma {:induction false} FewMerges(A: set<nat>, f: seq<nat>, merges: seq<Sons>, base: nat)
    requires Merged(A, f, merges, base)
    ensures base + |merges| <= |f| && Active(A, merges, base, 0) == A && Nodes(A, base)
  {
  }

  lemma {:induction false} CountsZero(A: set<nat>, l: seq<nat>, c: seq<nat>, max: nat)
    requires Counted(A, l, c) && |c| == 16 && forall x :: x in A ==> 1 <= l[x] <= max
    ensures c[0] == 0 && forall b :: max < b < 16 ==> c[b] == 0
  {
    forall b | 0 <= b < 16 && (b == 0 || b > max) ensures c[b] == 0 {
      CountZero(A, l, b);
    }
  }

  lemma {:induction false} RootApart(h: seq<nat>, first: nat, base: nat, A: set<nat>, root: nat)
    requires Layout(h, first, base, A) && first < HEAP_SIZE && root == Father(base, first)
    ensures root !in h[first..]
  {
    forall q: nat | first <= q < HEAP_SIZE ensures h[q] != root {
      NoFatherYet(h, first, base, A, q);
    }
  }

  lemma {:induction false} PassedCheapest(f: seq<nat>, l: seq<nat>, A: set<nat>, merges: seq<Sons>, base: nat, max: nat)
    requires Rooted(A, f, merges, base, l, max) && Over(l, base, max, 0, |merges|) == 0
    requires Nodes(A, |l|) && (forall x :: x in A ==> 1 <= l[x] <= max) && Kraft(A, l, max) == Pow2(max)
    ensures GoodLengths(A, f, l, max) && Cheapest(A, f, l)
  {
    hide Rooted, Cost, Kraft, Over, Pow2;
    assert |f| == |l| by { RootedSize(A, f, merges, base, l, max); }
    forall l2: seq<nat>, d: nat | |l2| == |l| && Feasible(A, l2, d) ensures Cost(A, f, l) <= Cost(A, f, l2) {
      Optimal(A, f, merges, base, l, max, l2, d);
    }
    assert Feasible(A, l, max);
    forall x, y | x in A && y in A && f[x] < f[y] ensures l[y] <= l[x] {
      if l[x] < l[y] {
        var m := Exchanged(A, l, max, x, y);
        OptimalIsMonotone(A, f, l, max, x, y);
      }
    }
  }

  lemma {:induction false} RootedSize(A: set<nat>, f: seq<nat>, merges: seq<Sons>, base: nat, l: seq<nat>, max: nat)
    requires Rooted(A, f, merges, base, l, max)
    ensures |f| == |l|
  {
  }

  /** Exchanging two lengths keeps a prefix code possible. */
  lemma {:induction false} Exchanged(A: set<nat>, l: seq<nat>, d: nat, x: nat, y: nat) returns (m: seq<nat>)
    requires Feasible(A, l, d) && x in A && y in A && l[x] <= l[y]
    ensures m == l[x := l[y]][y := l[x]] && Feasible(A, m, d)
  {
    var f: seq<nat> := seq(|l|, i => 0);
    m := Swap(A, f, l, d, x, y);
  }

  /** After the repair: lengths by frequency, with the counts that fill the space. */
  lemma {:induction false} RepairedLengths(h: seq<nat>, f: seq<nat>, first: nat, base: nat, A: set<nat>, l: seq<nat>,
      c: seq<nat>, max: nat, n: nat)
    requires |h| == HEAP_SIZE && Layout(h, first, base, A) && Nodes(A, base) && base <= |l| == |f|
        && Counted(A, l, c) && RepairOk(c, max, 0, |A|)
    requires forall x :: x in A ==> 1 <= l[x] <= max
    requires forall p, q :: first <= p < q < HEAP_SIZE && h[p] < base && h[q] < base ==> l[h[p]] <= l[h[q]]
    requires Falling(h, f, first, n)
    ensures GoodLengths(A, f, l, max)
  {
    hide Pow2, Kraft, Space, Total, CountOf, Layout;
    assert |h| == HEAP_SIZE;
    CountsTell(A, l, c, max);
    forall x, y | x in A && y in A && f[x] < f[y] ensures l[y] <= l[x] {
      var i := PlaceIn(h, first, base, A, x);
      var j := PlaceIn(h, first, base, A, y);
    }
  }

  lemma {:induction false} PlaceIn(h: seq<nat>, first: nat, base: nat, A: set<nat>, x: nat) returns (q: nat)
    requires Layout(h, first, base, A) && x in A
    ensures first <= q < HEAP_SIZE && h[q] == x
  {
    var i :| 0 <= i < |h[first..]| && h[first..][i] == x;
    q := first + i;
  }

  lemma {:induction false} OthersKept(h: seq<nat>, first: nat, base: nat, A: set<nat>, l0: seq<nat>, l: seq<nat>,
      max: nat)
    requires Layout(h, first, base, A) && Lengths(h, first, base, l0, l, max, HEAP_SIZE)
    ensures forall x :: 0 <= x < base && x < |l| && x !in A ==> l[x] == l0[x]
  {
  }

  // ---- the symbols of a tree ----

  /** The symbols below n that occur. */
  ghost function Occurring(f: seq<nat>, n: nat): (A: set<nat>)
    requires n <= |f|
    ensures Nodes(A, n)
  {
    if n == 0 then {}
    else if f[n - 1] != 0 then Occurring(f, n - 1) + {n - 1}
    else Occurring(f, n - 1)
  }

  lemma {:induction false} OccurringNext(f: seq<nat>, n: nat)
    requires n < |f|
    ensures Occurring(f, n + 1) == if f[n] != 0 then Occurring(f, n) + {n} else Occurring(f, n)
  {
  }

  /** The greatest symbol, or -1 when there is none. */
  ghost predicate MaxCode(A: set<nat>, max_code: int) {
    (forall x :: x in A ==> x <= max_code) && (if A == {} then max_code == -1 else max_code >= 0 && max_code in A)
  }

  lemma {:induction false} BagEmpty(h: seq<nat>)
    requires |h| > 0
    ensures Bag(h, 0) == multiset{}
  {
    assert h[1..1] == [];
  }

  lemma {:induction false} BagAdd(h: seq<nat>, len: nat, n: nat, A: set<nat>)
    requires len + 1 < |h| && Bag(h, len) == multiset(A) && n !in A
    ensures Bag(h[len + 1 := n], len + 1) == multiset(A + {n})
  {
    assert h[len + 1 := n][1..len + 2] == h[1..len + 1] + [n];
    SetPlus(A, n);
  }

  /** B is A, with symbols without extra bits forced in, once, to make two. */
  ghost predicate Forced(k: Kind, A: set<nat>, B: set<nat>, f: seq<nat>, g: seq<nat>) {
    && |f| == |g| && A <= B && Nodes(B, |f|) && (B != A ==> |B| <= 2)
    && (forall x :: 0 <= x < |f| ==> g[x] == if x in B && x !in A then 1 else f[x])
    && forall x :: x in B && x !in A ==> x < 3 && XBits(k, x) == 0
  }

  lemma {:induction false} ForcedOne(k: Kind, A: set<nat>, B: set<nat>, f: seq<nat>, g: seq<nat>, node: nat)
    requires Forced(k, A, B, f, g) && node !in B && node < 3 && node < |f| && |B| < 2
    ensures Forced(k, A, B + {node}, f, g[node := 1])
  {
    hide R.LengthExtra;
    assert R.DistExtra(0) == 0 && R.DistExtra(1) == 0 && R.DistExtra(2) == 0;
    hide R.DistExtra;
  }

  lemma {:induction false} ForcedNone(k: Kind, A: set<nat>, f: seq<nat>, St: seq<nat>)
    requires Nodes(A, |f|) && |St| == |f|
    ensures Forced(k, A, A, f, f) && |A - A| == 0 && Nodes(A - A, |St|) && Sum(A - A, St) == 0
  {
    assert A - A == {};
  }

  lemma {:induction false} ForcedMore(k: Kind, A: set<nat>, B: set<nat>, f: seq<nat>, g: seq<nat>, St: seq<nat>,
      node: nat)
    requires Forced(k, A, B, f, g) && |St| == |f| && node !in B && node < |f|
    ensures Nodes(B - A, |St|) && Nodes(B + {node} - A, |St|) && A <= B
    ensures |B + {node} - A| == |B - A| + 1 && Sum(B + {node} - A, St) == Sum(B - A, St) + St[node]
  {
    SumAdd(B - A, St, node);
    assert B + {node} - A == B - A + {node};
  }

  lemma {:induction false} OnlyOne(B: set<nat>, x: int)
    requires |B| < 2 && (B == {} ==> x == -1) && (B != {} ==> x >= 0 && x in B) && x >= 2
    ensures 0 !in B
  {
    SubsetSmaller({x}, B);
    if 0 in B { SubsetSmaller({0, x}, B); }
  }

  lemma {:induction false} NoNodes(h: seq<nat>)
    requires |h| > 0
    ensures NodesIn(h, 0, 0)
  {
  }

  lemma {:induction false} NoneOccur(f: seq<nat>)
    ensures Occurring(f, 0) == {}
  {
  }

  lemma {:induction false} HeapAdd(h: seq<nat>, len: nat, n: nat, bound: nat)
    requires NodesIn(h, len, bound) && len + 1 < |h| && n < bound
    ensures NodesIn(h[len + 1 := n], len + 1, bound)
  {
  }

  /** A symbol that is not yet among B, which has less than two. */
  method NextSymbol(max_code0: int, ghost B: set<nat>) returns (node: nat, max_code: int)
    requires |B| < 2 && MaxCode(B, max_code0)
    ensures node !in B && node < 3 && MaxCode(B + {node}, max_code)
  {
    max_code, node := max_code0, 0;
    if max_code < 2 {
      max_code := max_code + 1;
      node := max_code;
    } else {
      OnlyOne(B, max_code);
    }
  }

  lemma {:induction false} SonlessHeap(h: seq<nat>, len: nat, f: seq<nat>, depth: seq<nat>)
    requires NodesIn(h, len, |f|) && |f| <= |depth|
    ensures HeapFrom(h, len, f, depth, len / 2 + 1)
  {
    var k := len / 2 + 1;
    forall p: nat | k <= p ensures Down(h, len, f, depth, p) {
    }
  }

  lemma {:induction false} BuildingStart(h: seq<nat>, len: nat, f: seq<nat>, dl: seq<nat>, B: set<nat>, base: nat)
    requires |h| == HEAP_SIZE && |dl| == |f| && Nodes(B, base) && base <= |f| && NodesIn(h, len, |f|) && 1 <= len <= 286
    requires Bag(h, len) == multiset(B)
    ensures Building(h, len, f, dl, B, [], base)
  {
  }

  /** Symbols that do not occur are never active. */
  lemma {:induction false} NotActive(h: seq<nat>, len: nat, f: seq<nat>, dl: seq<nat>, B: set<nat>,
      merges: seq<Sons>, base: nat)
    requires Building(h, len, f, dl, B, merges, base)
    ensures forall x: nat :: x < base && x !in B ==> x !in Active(B, merges, base, |merges|)
  {
    forall x: nat | x < base && x in Active(B, merges, base, |merges|) ensures x in B {
      SonIsSymbol(B, f, merges, base, |merges|, x);
    }
  }

  /** The node that is left is the father of the last merge. */
  lemma {:induction false} LastNode(h: seq<nat>, f: seq<nat>, dl: seq<nat>, B: set<nat>, merges: seq<Sons>, base: nat)
    requires Building(h, 1, f, dl, B, merges, base) && |merges| > 0
    ensures Merged(B, f, merges, base) && Recorded(h, dl, merges, base)
        && Falling(h, f, HEAP_SIZE - 2 * |merges|, base + |merges|)
    ensures 2 * |merges| + 1 < HEAP_SIZE
    ensures Active(B, merges, base, |merges|) == {base + |merges| - 1} && h[1] == base + |merges| - 1
  {
    var root := base + |merges| - 1;
    ActiveNext(B, merges, base, |merges| - 1);
    var A := Active(B, merges, base, |merges|);
    BagSize(h, 1, A);
    SubsetSize({root}, A);
    assert h[1..2] == [h[1]];
    assert h[1] in multiset(A);
  }

  lemma {:induction false} RootPlaced(h: seq<nat>, g: seq<nat>, f: seq<nat>, dl: seq<nat>, merges: seq<Sons>, base: nat)
    requires Recorded(h, dl, merges, base) && Falling(h, f, HEAP_SIZE - 2 * |merges|, base + |merges|)
    requires |g| == |h| && forall p :: HEAP_SIZE - 2 * |merges| <= p < HEAP_SIZE ==> g[p] == h[p]
    ensures Recorded(g, dl, merges, base) && Falling(g, f, HEAP_SIZE - 2 * |merges|, base + |merges|)
  {
    forall i: nat | i < |merges| ensures RecordedAt(g, dl, merges, base, i) {
      assert RecordedAt(h, dl, merges, base, i);
    }
  }

  lemma {:induction false} WidenNodes(h: seq<nat>, len: nat, n: nat, m: nat)
    requires NodesIn(h, len, n) && n <= m
    ensures NodesIn(h, len, m)
  {
  }

  lemma {:induction false} SizeBound(A: set<nat>, n: nat)
    requires Nodes(A, n)
    ensures |A| <= n
  {
    if n == 0 {
      assert forall x :: x !in A;
      assert A == {};
    } else {
      SizeBound(A - {n - 1}, n - 1);
      if n - 1 in A { assert |A - {n - 1}| == |A| - 1; } else { assert A - {n - 1} == A; }
    }
  }

  lemma {:induction false} ElemsFit(k: Kind, B: set<nat>)
    requires Nodes(B, Elems(k))
    ensures |B| <= Pow2(MaxLength(k))
  {
    SizeBound(B, Elems(k));
    R.SmallPow2();
    assert Pow2(7) == 128 && Pow2(9) == 512;
    Pow2Mono(9, 15);
  }

  // ---- what a built tree is ----

  /** The bits that the symbols take by their lengths l, extra bits included. */
  ghost function DynCost(k: Kind, f: seq<nat>, l: seq<nat>): nat
    requires |f| == |l| && Elems(k) <= |f|
  {
    Cost(Occurring(f, Elems(k)), f, l) + Cost(Occurring(f, Elems(k)), f, ExtraOf(k, |f|))
  }

  /** The lengths of the symbols up to the last that occurs make a complete canonical code of
      exactly the symbols B, which are those that occur and one or two more where less than
      two do; no more frequent symbol has a longer code. The codes come from a tree of merges of
      the least frequent nodes; when no symbol hangs deeper in it than the limit, lengths are
      depths and no prefix code is cheaper; and none does when the symbols are few enough. */
  ghost predicate Built(t: Tree, f0: seq<nat>, B: set<nat>, freq: seq<nat>, merges: seq<Sons>)
    requires t.Shape()
    reads t.fc, t.dl, t`max_code
  {
    && 0 <= t.max_code < Elems(t.kind) && |f0| == t.fc.Length == |freq|
    && CodeLensOk(t.kind, B, t.dl[..], t.max_code) && CodesOk(t.fc[..], t.dl[..t.max_code + 1])
    && ForcedOnly(t.kind, Occurring(f0, Elems(t.kind)), B, f0, freq)
    && GoodLengths(B, freq, t.dl[..], MaxLength(t.kind)) && Best(t.kind, B, freq, merges, t.dl[..])
    && (Sum(Occurring(f0, Elems(t.kind)), f0) + 2 < Fib(MaxLength(t.kind) + 3) ==> Cheapest(B, freq, t.dl[..]))
  }

  /** The cheapest lengths are cheaper than the words of any prefix code. */
  lemma {:induction false} CheapestOfAll(B: set<nat>, freq: seq<nat>, l: seq<nat>, words: seq<seq<bool>>)
    requires |freq| == |l| == |words| && Nodes(B, |l|) && Cheapest(B, freq, l) && PrefixFree(B, words)
    ensures Cost(B, freq, l) <= Cost(B, freq, Lens(words))
  {
    hide Cost;
    var d := PrefixFreeFeasible(B, words);
  }

  /** The tree of merges; and the best lengths, unless some symbol hangs too deep in it. */
  ghost predicate Best(k: Kind, B: set<nat>, freq: seq<nat>, merges: seq<Sons>, l: seq<nat>) {
    && |freq| == |l| && Nodes(B, |l|) && Whole(B, freq, merges, Elems(k))
    && (!Deep(B, merges, Elems(k), MaxLength(k)) ==> Cheapest(B, freq, l) && AtDepth(B, merges, Elems(k), l))
  }

  /** All of B merged into one tree. */
  ghost predicate Whole(B: set<nat>, f: seq<nat>, merges: seq<Sons>, base: nat) {
    && Merged(B, f, merges, base) && |merges| > 0
    && Active(B, merges, base, |merges|) == {base + |merges| - 1}
  }

  ghost predicate AtDepth(B: set<nat>, merges: seq<Sons>, base: nat, l: seq<nat>)
    requires Nodes(B, |l|)
  {
    forall x :: x in B ==> l[x] == Depth(merges, base, x, 0)
  }

  lemma {:induction false} FewIsCheapest(k: Kind, A: set<nat>, B: set<nat>, f0: seq<nat>, freq: seq<nat>,
      merges: seq<Sons>, l: seq<nat>)
    requires Best(k, B, freq, merges, l) && ForcedOnly(k, A, B, f0, freq) && A == Occurring(f0, Elems(k))
    ensures Nodes(A, |f0|) && (Sum(A, f0) + 2 < Fib(MaxLength(k) + 3) ==> Cheapest(B, freq, l))
  {
    hide Cheapest, Deep, Merged, Fib, Sum, Active;
    CostSplit(A, B, freq);
    SumSame(A, freq, f0);
    SumConst(B - A, freq, 1);
    SubsetSmaller(B - A, B);
    forall x | x in B
      ensures freq[x] >= 1
    {
      if x in A { OccursOften(f0, Elems(k), x); }
    }
    if Sum(B, freq) < Fib(MaxLength(k) + 3) { RareIsShallow(B, freq, merges, Elems(k), MaxLength(k)); }
  }

  lemma {:induction false} OccursOften(f: seq<nat>, n: nat, x: nat)
    requires n <= |f| && x in Occurring(f, n)
    ensures f[x] >= 1
    decreases n
  {
    if x != n - 1 { OccursOften(f, n - 1, x); }
  }

  ghost predicate CodeLensOk(k: Kind, B: set<nat>, dl: seq<nat>, max_code: int) {
    && 0 <= max_code < Elems(k) < |dl| && max_code in B && Nodes(B, max_code + 1)
    && Canonical.LensOk(dl[..max_code + 1]) && Canonical.Complete(dl[..max_code + 1])
    && forall x :: 0 <= x < Elems(k) ==> (if x in B then 1 <= dl[x] <= MaxLength(k) else dl[x] == 0)
  }

  ghost predicate ForcedOnly(k: Kind, A: set<nat>, B: set<nat>, f0: seq<nat>, freq: seq<nat>) {
    && |f0| == |freq| && Elems(k) <= |f0| && A <= B && Nodes(B, Elems(k)) && |B| >= 2 && (B != A ==> |B| == 2)
    && forall x :: 0 <= x < Elems(k) ==> freq[x] == if x in B && x !in A then 1 else f0[x]
  }

  lemma {:induction false} ForcedIn(k: Kind, A: set<nat>, B: set<nat>, f0: seq<nat>, f1: seq<nat>, dl: seq<nat>, n: nat)
    requires Forced(k, A, B, f0, f1) && n <= |f0| == |dl| && A == Occurring(f0, n)
    requires forall x :: 0 <= x < n && x !in A ==> dl[x] == 0
    ensures forall x :: 0 <= x < n && x !in B ==> dl[x] == 0
  {
  }

  /** Canonical.Count and CountOf count the same. */
  lemma {:induction false} CountLink(B: set<nat>, dl: seq<nat>, n: nat, v: nat)
    requires Nodes(B, n) && n <= |dl| && v >= 1 && forall x :: 0 <= x < n && x !in B ==> dl[x] == 0
    ensures Canonical.Count(dl[..n], v) == CountOf(B, dl, v)
    decreases n
  {
    if n > 0 {
      var m := n - 1;
      Canonical.CountPrefix(dl[..n], m, v);
      assert dl[..n][..n] == dl[..n] && dl[..n][..m] == dl[..m];
      CountLink(B - {m}, dl, m, v);
      if m in B { SumRemove(B, OfLength(dl, v), m); } else { assert B - {m} == B; }
    } else {
      assert forall x :: x !in B;
      assert B == {};
    }
  }

  lemma {:induction false} KraftScale(A: set<nat>, l: seq<nat>, d: nat, k: nat)
    requires Nodes(A, |l|) && forall x :: x in A ==> l[x] <= d
    ensures Kraft(A, l, d + k) == Shl(Kraft(A, l, d), k)
    decreases k
  {
    hide Kraft;
    if k > 0 {
      KraftScale(A, l, d, k - 1);
      KraftDouble(A, l, d + k - 1);
    }
  }

  lemma {:induction false} SpaceIsKraft(c: seq<nat>, cnt: seq<nat>, b: nat)
    requires |c| == 16 == |cnt| && b <= 15 && c[0] == 0 && forall i :: 1 <= i <= b ==> c[i] == cnt[i]
    ensures Space(c, 15, b) == Canonical.Kraft(cnt, b)
    decreases b
  {
    hide Shl, Pow2;
    NoShare(15);
    if b > 0 { SpaceIsKraft(c, cnt, b - 1); }
  }

  lemma {:induction false} NoShare(n: nat)
    ensures Shl(0, n) == 0
  {
    Shl1(n);
  }

  /** Lengths that fill the space up to max fill that of the canonical code. */
  lemma {:induction false} CompleteLens(B: set<nat>, dl: seq<nat>, c: seq<nat>, n: nat, max: nat)
    requires Nodes(B, n) && n <= |dl| && Counted(B, dl, c) && |c| == 16 && max <= 15
    requires (forall x :: x in B ==> 1 <= dl[x] <= max) && Kraft(B, dl, max) == Pow2(max)
    requires forall x :: 0 <= x < n && x !in B ==> dl[x] == 0
    ensures c[0] == 0 && forall l: nat :: 1 <= l <= 15 ==> c[l] == Canonical.Count(dl[..n], l)
    ensures Canonical.Complete(dl[..n]) && Canonical.NotOver(dl[..n])
  {
    hide Kraft, Canonical.Count, CountOf, Space, Canonical.Kraft;
    CountZero(B, dl, 0);
    forall l: nat | 1 <= l <= 15 ensures c[l] == Canonical.Count(dl[..n], l) {
      CountLink(B, dl, n, l);
    }
    KraftScale(B, dl, max, 15 - max);
    ShlPow2(max, 15 - max);
    CountsTell(B, dl, c, 15);
    SpaceIsKraft(c, Canonical.Counts(dl[..n]), 15);
  }

  lemma {:induction false} LengthsDone(k: Kind, B: set<nat>, f: seq<nat>, dl: seq<nat>, c: seq<nat>, max_code: int)
    requires GoodLengths(B, f, dl, MaxLength(k)) && Counted(B, dl, c) && |c| == 16 && MaxCode(B, max_code) && |B| >= 2
    requires Nodes(B, Elems(k)) && Elems(k) < |dl| && forall x :: 0 <= x < Elems(k) && x !in B ==> dl[x] == 0
    ensures CodeLensOk(k, B, dl, max_code)
    ensures Canonical.NotOver(dl[..max_code + 1]) && c[0] == 0 && forall l: nat :: 1 <= l <= 15 ==>
        c[l] == Canonical.Count(dl[..max_code + 1], l)
  {
    hide Kraft, Canonical.Complete, Canonical.NotOver, Canonical.Count, Counted, Pow2;
    CompleteLens(B, dl, c, max_code + 1, MaxLength(k));
  }

  /** A code of two symbols has one bit for each. */
  lemma {:induction false} TwoSymbols(B: set<nat>, f: seq<nat>, l: seq<nat>, max: nat)
    requires GoodLengths(B, f, l, max) && |B| == 2 && max >= 1
    ensures forall x :: x in B ==> l[x] == 1
  {
    hide Pow2, Sum;
    var a, b := Pair(B);
    SumTwo(B, Shares(l, max), a, b);
    SumNone(Shares(l, max));
    HalfEach(l[a], l[b], max);
  }

  lemma {:induction false} Pair(B: set<nat>) returns (a: nat, b: nat)
    requires |B| == 2
    ensures a != b && B == {a, b} && B - {a, b} == {}
  {
    a :| a in B;
    assert |B - {a}| == 1;
    b :| b in B - {a};
    SubsetSize({a, b}, B);
  }

  lemma {:induction false} SumNone(w: seq<nat>)
    ensures Sum({}, w) == 0
  {
  }

  lemma {:induction false} HalfEach(a: nat, b: nat, max: nat)
    requires 1 <= a <= max && 1 <= b <= max && Pow2(max - a) + Pow2(max - b) == Pow2(max)
    ensures a == 1 == b
  {
    hide Pow2;
    if a > 1 { SmallShare(a, b, max); }
    if b > 1 { SmallShare(b, a, max); }
  }

  /** Of two shares, both are halves or they do not make a whole. */
  lemma {:induction false} SmallShare(a: nat, b: nat, max: nat)
    requires 1 < a <= max && 1 <= b <= max
    ensures Pow2(max - a) + Pow2(max - b) < Pow2(max)
  {
    Pow2Step(max - 1);
    Pow2Step(max - 2);
    hide Pow2;
    Pow2Mono(max - a, max - 2);
    Pow2Mono(max - b, max - 1);
  }

  /** Costs split over a set and what was forced in. */
  lemma {:induction false} CostSplit(A: set<nat>, B: set<nat>, v: seq<nat>)
    requires A <= B && Nodes(B, |v|)
    ensures Nodes(A, |v|) && Nodes(B - A, |v|) && Sum(B, v) == Sum(A, v) + Sum(B - A, v)
    decreases |A|
  {
    if A == {} {
      assert B - A == B;
    } else {
      var x :| x in A;
      SumRemove(A, v, x);
      SumRemove(B, v, x);
      CostSplit(A - {x}, B - {x}, v);
      assert B - {x} - (A - {x}) == B - A;
    }
  }

  lemma {:induction false} SumConst(A: set<nat>, v: seq<nat>, k: nat)
    requires Nodes(A, |v|) && forall x :: x in A ==> v[x] == k
    ensures Sum(A, v) == Times(|A|, k)
    decreases |A|
  {
    if A != {} {
      var x :| x in A;
      SumRemove(A, v, x);
      SumConst(A - {x}, v, k);
      assert |A| == |A - {x}| + 1;
      assert |A| * k == |A - {x}| * k + k;
    }
  }

  lemma {:induction false} CostOver(A: set<nat>, B: set<nat>, f0: seq<nat>, freq: seq<nat>, w: seq<nat>)
    requires A <= B && Nodes(B, |w|) && |f0| == |freq| == |w| && forall x :: x in A ==> freq[x] == f0[x]
    ensures Nodes(A, |w|) && Nodes(B - A, |w|) && Cost(B, freq, w) == Cost(A, f0, w) + Sum(B - A, Weighted(freq, w))
  {
    hide Times;
    CostSplit(A, B, Weighted(freq, w));
    SumSame(A, Weighted(freq, w), Weighted(f0, w));
  }

  /** A symbol of frequency one takes what its length says. */
  lemma {:induction false} OneTime(A: set<nat>, freq: seq<nat>, w: seq<nat>)
    requires Nodes(A, |w|) && |freq| == |w| && forall x :: x in A ==> freq[x] == 1
    ensures Sum(A, Weighted(freq, w)) == Sum(A, w)
  {
    SumSame(A, Weighted(freq, w), w);
  }

  /** Symbols that were forced in add one bit each, which was taken off before. */
  lemma {:induction false} CostsDone(k: Kind, A: set<nat>, B: set<nat>, f0: seq<nat>, f1: seq<nat>, freq: seq<nat>,
      l: seq<nat>)
    requires Elems(k) <= |f0| == |freq| == |l| && A == Occurring(f0, Elems(k)) && Forced(k, A, B, f0, f1)
        && Nodes(B, Elems(k)) && |B| >= 2
    requires (forall x :: 0 <= x < Elems(k) ==> freq[x] == f1[x]) && GoodLengths(B, freq, l, MaxLength(k))
    ensures ForcedOnly(k, A, B, f0, freq) && Nodes(B - A, |f0|)
    ensures Cost(B, freq, l) + Cost(B, freq, ExtraOf(k, |f0|)) == DynCost(k, f0, l) + |B - A|
    ensures StaticCost(k, B, freq) == StaticCost(k, A, f0) + if k == BLTREE then 0 else Sum(B - A, StaticOf(k, |f0|))
  {
    hide Kraft, Pow2, Occurring, XBits, StaticLen, Cost, Sum, Forced, ExtraOf, StaticOf, GoodLengths;
    var X, St := ExtraOf(k, |f0|), StaticOf(k, |f0|);
    ForcedFacts(k, A, B, f0, f1, freq);
    CostOver(A, B, f0, freq, l);
    CostOver(A, B, f0, freq, X);
    CostOver(A, B, f0, freq, St);
    OneTime(B - A, freq, l);
    OneTime(B - A, freq, X);
    OneTime(B - A, freq, St);
    SumConst(B - A, X, 0);
    if B == A {
      assert B - A == {};
      SumConst(B - A, l, 1);
    } else {
      TwoSymbols(B, freq, l, MaxLength(k));
      SumConst(B - A, l, 1);
    }
  }

  lemma {:induction false} ForcedFacts(k: Kind, A: set<nat>, B: set<nat>, f0: seq<nat>, f1: seq<nat>, freq: seq<nat>)
    requires Elems(k) <= |f0| == |freq| && Forced(k, A, B, f0, f1) && Nodes(B, Elems(k)) && |B| >= 2
    requires forall x :: 0 <= x < Elems(k) ==> freq[x] == f1[x]
    ensures ForcedOnly(k, A, B, f0, freq) && (forall x :: x in A ==> freq[x] == f0[x])
        && (forall x :: x in B - A ==> freq[x] == 1)
    ensures forall x :: x in B - A ==> XBits(k, x) == 0
  {
    hide XBits;
  }

  lemma {:induction false} MergedSize(A: set<nat>, f: seq<nat>, merges: seq<Sons>, base: nat)
    requires Merged(A, f, merges, base)
    ensures base + |merges| <= |f|
  {
  }

  /** The symbols of B are on the heap, those beyond A forced, and the estimates changed for them. */
  ghost predicate Forces(k: Kind, A: set<nat>, B: set<nat>, f0: seq<nat>, h: seq<nat>, len: nat, f: seq<nat>, opt: int,
      static_: int)
    requires |f0| == |f|
  {
    && Nodes(B, Elems(k)) && Elems(k) <= |f| && len <= Elems(k) && NodesIn(h, len, Elems(k))
    && Bag(h, len) == multiset(B) && (B == A || len <= 2) && Forced(k, A, B, f0, f) && opt == -|B - A|
    && static_ == 0 - (if k == BLTREE then 0 else Sum(B - A, StaticOf(k, |f|)))
  }

  lemma {:induction false} NodesMore(B: set<nat>, n: nat, x: nat)
    requires Nodes(B, n) && x < n
    ensures Nodes(B + {x}, n)
  {
  }

  lemma {:induction false} ForcesOne(k: Kind, A: set<nat>, B: set<nat>, f0: seq<nat>, h: seq<nat>, len: nat,
      f: seq<nat>, opt: int, static_: int, node: nat)
    requires |f0| == |f| && Forces(k, A, B, f0, h, len, f, opt, static_) && len < 2 && node !in B && node < 3
        && len + 1 < |h|
    ensures node < |f|
    ensures Forces(k, A, B + {node}, f0, h[len + 1 := node], len + 1, f[node := 1], opt - 1,
        if k == BLTREE then static_ else static_ - StaticLen(k, node))
  {
    hide Bag, NodesIn, Forced, Sum, StaticLen, XBits, Nodes;
    var St := StaticOf(k, |f|);
    BagSize(h, len, B);
    NodesMore(B, Elems(k), node);
    BagAdd(h, len, node, B);
    HeapAdd(h, len, node, Elems(k));
    ForcedOne(k, A, B, f0, f, node);
    ForcedMore(k, A, B, f0, f, St, node);
  }

  // ---- the builder ----

  /** What deflate_state keeps for building trees. */
  class Builder {
    const heap: array<nat>
    const depth: array<nat>
    const bl_count: array<nat>
    var heap_len: nat
    var heap_max: nat
    var opt_len: int
    var static_len: int

    ghost predicate Shape() {
      heap.Length == HEAP_SIZE == depth.Length && bl_count.Length == 16 && heap != depth && bl_count != heap
          && bl_count != depth
    }

    constructor ()
      ensures Shape() && fresh(heap) && fresh(depth) && fresh(bl_count) && opt_len == 0 == static_len
    {
      heap := new nat[HEAP_SIZE](i => 0);
      depth := new nat[HEAP_SIZE](i => 0);
      bl_count := new nat[16](i => 0);
      heap_len, heap_max, opt_len, static_len := 0, HEAP_SIZE, 0, 0;
    }

    /** The tree t does not share arrays with the builder. */
    ghost predicate Apart(t: Tree) {
      && Shape() && t.Shape()
      && t.fc != heap && t.fc != depth && t.fc != bl_count && t.dl != heap && t.dl != depth && t.dl != bl_count
    }

    /** The loop invariant of build_tree. */
    ghost predicate At(t: Tree, A: set<nat>, merges: seq<Sons>)
      requires Shape() && t.Shape()
      reads this, heap, depth, t.fc, t.dl
    {
      && Building(heap[..], heap_len, t.fc[..], t.dl[..], A, merges, Elems(t.kind))
      && heap_max == HEAP_SIZE - 2 * |merges|
      && heap_len + |merges| <= Elems(t.kind)
      && HeapFrom(heap[..], heap_len, t.fc[..], depth[..], 1)
    }

    /** pqremove: the smallest node. */
    method PqRemove(t: Tree) returns (top: nat)
      requires Apart(t) && NodesIn(heap[..], heap_len, t.fc.Length)
          && HeapFrom(heap[..], heap_len, t.fc[..], depth[..], 1) && heap_len >= 2
      modifies heap, `heap_len
      ensures top == old(heap[1]) && heap_len == old(heap_len) - 1
      ensures NodesIn(heap[..], heap_len, t.fc.Length) && HeapFrom(heap[..], heap_len, t.fc[..], depth[..], 1)
      ensures Bag(heap[..], heap_len) == old(Bag(heap[..], heap_len)) - multiset{top}
      ensures forall i :: old(heap_len) < i < HEAP_SIZE ==> heap[i] == old(heap[i])
    {
      hide HeapFrom, Bag;
      ghost var h := heap[..];
      RemoveFirst(h, heap_len, t.fc[..], depth[..]);
      top := heap[1];
      heap[1] := heap[heap_len];
      heap_len := heap_len - 1;
      assert heap[..] == h[1 := h[heap_len + 1]];
      PqDownHeap(heap, heap_len, t.fc, depth, 1);
    }

    /** The new node takes the place of the first. */
    method PqReplace(t: Tree, node: nat, ghost f: seq<nat>, ghost dep: seq<nat>)
      requires Apart(t) && |f| == t.fc.Length && |dep| == HEAP_SIZE && heap_len >= 1
      requires NodesIn(heap[..], heap_len, |f|) && HeapFrom(heap[..], heap_len, f, dep, 1)
      requires node < t.fc.Length && NodesIn(heap[..], heap_len, node)
      requires forall x :: 0 <= x < node ==> f[x] == t.fc[x] && dep[x] == depth[x]
      modifies heap
      ensures NodesIn(heap[..], heap_len, t.fc.Length) && HeapFrom(heap[..], heap_len, t.fc[..], depth[..], 1)
      ensures Bag(heap[..], heap_len) == old(Bag(heap[..], heap_len)) - multiset{old(heap[1])} + multiset{node}
      ensures forall i :: heap_len < i < HEAP_SIZE ==> heap[i] == old(heap[i])
    {
      hide HeapFrom, Bag;
      ghost var h := heap[..];
      ReplaceFirst(h, heap_len, f, dep, t.fc[..], depth[..], node);
      heap[1] := node;
      assert heap[..] == h[1 := node];
      PqDownHeap(heap, heap_len, t.fc, depth, 1);
    }

    /** Record the sons n and m of node. */
    method MakeFather(t: Tree, node: nat, n: nat, m: nat)
      requires Apart(t) && node < t.fc.Length && n < t.fc.Length && m < t.fc.Length && 2 <= heap_max <= HEAP_SIZE
      modifies heap, `heap_max, depth, t.fc, t.dl
      ensures heap_max == old(heap_max) - 2 && heap[heap_max + 1] == n && heap[heap_max] == m
      ensures forall p :: 0 <= p < HEAP_SIZE && p != heap_max && p != heap_max + 1 ==> heap[p] == old(heap[p])
      ensures t.fc[..] == old(t.fc[..])[node := old(t.fc[n] + t.fc[m])]
      ensures t.dl[..] == old(t.dl[..])[n := node][m := node]
      ensures forall x :: 0 <= x < HEAP_SIZE && x != node ==> depth[x] == old(depth[x])
    {
      heap_max := heap_max - 1;
      heap[heap_max] := n;
      heap_max := heap_max - 1;
      heap[heap_max] := m;
      t.fc[node] := t.fc[n] + t.fc[m];
      depth[node] := ((if depth[n] >= depth[m] then depth[n] else depth[m]) + 1) % 256;
      t.dl[n] := node;
      t.dl[m] := node;
    }

    /** Take the two least frequent nodes of B off the heap, and put their father in. */
    method Combine(t: Tree, node: nat, ghost B: set<nat>) returns (ghost n: nat, ghost m: nat)
      requires Apart(t) && 2 <= heap_len && heap_len + 2 < heap_max <= HEAP_SIZE && node < t.fc.Length && Nodes(B, node)
      requires NodesIn(heap[..], heap_len, t.fc.Length) && HeapFrom(heap[..], heap_len, t.fc[..], depth[..], 1)
      requires Bag(heap[..], heap_len) == multiset(B)
      modifies heap, `heap_len, `heap_max, depth, t.fc, t.dl
      ensures old(Least(B, t.fc[..], n, m)) && n < t.fc.Length && m < t.fc.Length
      ensures heap_len == old(heap_len) - 1 && heap_max == old(heap_max) - 2
      ensures NodesIn(heap[..], heap_len, t.fc.Length) && HeapFrom(heap[..], heap_len, t.fc[..], depth[..], 1)
      ensures Bag(heap[..], heap_len) == multiset(Merge(B, n, m, node))
      ensures heap[heap_max + 1] == n && heap[heap_max] == m && forall p :: old(heap_max) <= p < HEAP_SIZE ==>
          heap[p] == old(heap[p])
      ensures t.fc[..] == old(t.fc[..])[node := old(t.fc[n] + t.fc[m])]
      ensures t.dl[..] == old(t.dl[..])[n := node][m := node]
    {
      hide HeapFrom, Bag, NodesIn, Smaller;
      var a, b := Extract(t, B);
      n, m := a, b;
      Graft(t, node, a, b, B - {a});
      MergeBag(B, n, m, node);
    }

    /** Take the least node out, and look at the next one. */
    method Extract(t: Tree, ghost B: set<nat>) returns (n: nat, m: nat)
      requires Apart(t) && 2 <= heap_len < HEAP_SIZE && Nodes(B, t.fc.Length)
      requires NodesIn(heap[..], heap_len, t.fc.Length) && HeapFrom(heap[..], heap_len, t.fc[..], depth[..], 1)
      requires Bag(heap[..], heap_len) == multiset(B)
      modifies heap, `heap_len
      ensures Least(B, t.fc[..], n, m) && n < t.fc.Length && m < t.fc.Length && heap_len == old(heap_len) - 1
          && m == heap[1]
      ensures NodesIn(heap[..], heap_len, t.fc.Length) && HeapFrom(heap[..], heap_len, t.fc[..], depth[..], 1)
      ensures Bag(heap[..], heap_len) == multiset(B - {n})
      ensures forall i :: old(heap_len) < i < HEAP_SIZE ==> heap[i] == old(heap[i])
    {
      hide HeapFrom, Bag, NodesIn, Smaller;
      FirstLeast(heap[..], heap_len, t.fc[..], depth[..], B);
      n := PqRemove(t);
      SetMinus(B, n);
      FirstLeast(heap[..], heap_len, t.fc[..], depth[..], B - {n});
      m := heap[1];
    }

    /** Make node the father of n and of the first of the heap, and put it in the place of that. */
    method Graft(t: Tree, node: nat, n: nat, m: nat, ghost B: set<nat>)
      requires Apart(t) && 1 <= heap_len && heap_len + 3 < heap_max <= HEAP_SIZE && node < t.fc.Length
          && n < t.fc.Length && Nodes(B, node)
      requires NodesIn(heap[..], heap_len, t.fc.Length) && HeapFrom(heap[..], heap_len, t.fc[..], depth[..], 1)
      requires Bag(heap[..], heap_len) == multiset(B) && m == heap[1] < t.fc.Length
      modifies heap, `heap_max, depth, t.fc, t.dl
      ensures NodesIn(heap[..], heap_len, t.fc.Length) && HeapFrom(heap[..], heap_len, t.fc[..], depth[..], 1)
      ensures Bag(heap[..], heap_len) == multiset(B) - multiset{m} + multiset{node} && heap_max == old(heap_max) - 2
      ensures heap[heap_max + 1] == n && heap[heap_max] == m && forall p :: old(heap_max) <= p < HEAP_SIZE ==>
          heap[p] == old(heap[p])
      ensures t.fc[..] == old(t.fc[..])[node := old(t.fc[n] + t.fc[m])]
      ensures t.dl[..] == old(t.dl[..])[n := node][m := node]
    {
      hide HeapFrom, Bag, NodesIn, Smaller;
      ghost var h, f, dep := heap[..], t.fc[..], depth[..];
      BagNodes(h, heap_len, B, node);
      MakeFather(t, node, n, m);
      KeepHeap(h, heap[..], heap_len, f, dep, node);
      PqReplace(t, node, f, dep);
    }

    /** Combine the two least frequent nodes. */
    method MergeTwo(t: Tree, node: nat, ghost A: set<nat>, ghost merges: seq<Sons>) returns (ghost more: seq<Sons>)
      requires Apart(t) && At(t, A, merges) && heap_len >= 2 && node == Elems(t.kind) + |merges|
      modifies heap, `heap_len, `heap_max, depth, t.fc, t.dl
      ensures At(t, A, more) && |more| == |merges| + 1 && merges <= more && heap_len == old(heap_len) - 1
      ensures forall x :: 0 <= x < node ==> t.fc[x] == old(t.fc[x])
      ensures forall x :: 0 <= x < t.dl.Length && x !in Active(A, merges, Elems(t.kind), |merges|) ==>
          t.dl[x] == old(t.dl[x])
    {
      hide HeapFrom, Bag, Merged, Recorded, Falling, Active, NodesIn, Merge;
      ghost var base, k := Elems(t.kind), |merges|;
      ghost var h, len, f, dl := heap[..], heap_len, t.fc[..], t.dl[..];
      ghost var B := Active(A, merges, base, k);
      ActiveNodes(A, f, merges, base, k);
      ghost var n, m := Combine(t, node, B);
      ghost var s := Sons(n, m);
      more := merges + [s];
      ActivePrefix(A, merges, more, base, k);
      ActiveNext(A, more, base, k);
      BuildingNext(h, len, f, dl, A, merges, base, heap[..], t.fc[..], t.dl[..], s);
    }

    // ---- gen_bitlen ----

    /** What has been added up for the symbols P. */
    ghost predicate Added(t: Tree, P: set<nat>, opt0: int, static0: int)
      requires Shape() && t.Shape()
      reads `opt_len, `static_len, bl_count, t.fc, t.dl
    {
      && Counted(P, t.dl[..], bl_count[..])
      && opt_len == opt0 + Cost(P, t.fc[..], t.dl[..]) + Cost(P, t.fc[..], ExtraOf(t.kind, t.fc.Length))
      && static_len == static0 + (if t.kind == BLTREE then 0
          else Cost(P, t.fc[..], StaticOf(t.kind, t.fc.Length)) + Cost(P, t.fc[..], ExtraOf(t.kind, t.fc.Length)))
    }

    /** Give symbol n its length, and add it up. */
    method AddSymbol(t: Tree, n: nat, bits: nat, ghost P: set<nat>, ghost opt0: int, ghost static0: int)
      requires Apart(t) && Added(t, P, opt0, static0) && n !in P && n < t.fc.Length && bits < 16
      modifies `opt_len, `static_len, bl_count, t.dl
      ensures t.dl[..] == old(t.dl[..])[n := bits] && Added(t, P + {n}, opt0, static0)
    {
      hide Times;
      ghost var f, X, St := t.fc[..], ExtraOf(t.kind, t.fc.Length), StaticOf(t.kind, t.fc.Length);
      NodeAdded(P, f, t.dl[..], bl_count[..], n, bits);
      SumAdd(P, Weighted(f, X), n);
      SumAdd(P, Weighted(f, St), n);
      t.dl[n] := bits;
      bl_count[bits] := bl_count[bits] + 1;
      var xbits := XBits(t.kind, n);
      opt_len := opt_len + t.fc[n] * (bits + xbits);
      if t.kind != BLTREE { static_len := static_len + t.fc[n] * (StaticLen(t.kind, n) + xbits); }
      TimesSum(t.fc[n], bits, xbits);
      TimesSum(t.fc[n], StaticLen(t.kind, n), xbits);
    }

    lemma {:induction false} AddedNone(t: Tree)
      requires Apart(t) && forall b :: 0 <= b < 16 ==> bl_count[b] == 0
      ensures Added(t, {}, opt_len, static_len)
    {
    }

    /** A node that is no symbol gets its length. */
    method KeepAdded(t: Tree, n: nat, bits: nat, ghost P: set<nat>, ghost opt0: int, ghost static0: int)
      requires Apart(t) && Added(t, P, opt0, static0) && n !in P && n < t.fc.Length
      modifies t.dl
      ensures t.dl[..] == old(t.dl[..])[n := bits] && Added(t, P, opt0, static0)
    {
      OutsideKeeps(P, t.fc[..], t.dl[..], bl_count[..], n, bits);
      t.dl[n] := bits;
    }

    /** The finished array is laid out, and the nodes in it know their fathers. */
    ghost predicate Ready(t: Tree, first: nat, A: set<nat>)
      requires Apart(t)
      reads heap, t.fc, t.dl, t`max_code
    {
      var base := Elems(t.kind);
      && Layout(heap[..], first, base, A) && first + 1 <= HEAP_SIZE && base + (HEAP_SIZE - first + 1) / 2 <= t.dl.Length
      && Nodes(A, base) && (forall x :: x in A ==> x <= t.max_code) && t.max_code < base
      && (forall q :: first <= q < HEAP_SIZE ==> heap[q] < t.dl.Length)
    }

    /** Before the first pass: fathers, and the length of the root. */
    ghost predicate Fathers(first: nat, base: nat, l: seq<nat>)
    {
      first < HEAP_SIZE && Father(base, first) < |l| && l[Father(base, first)] == 0
    }

    method ClearCounts()
      requires Shape()
      modifies bl_count
      ensures forall b :: 0 <= b < 16 ==> bl_count[b] == 0
    {
      var bits := 0;
      while bits < 16
        invariant 0 <= bits <= 16 && forall b :: 0 <= b < bits ==> bl_count[b] == 0
      {
        bl_count[bits] := 0;
        bits := bits + 1;
      }
    }

    /** The invariant of the first pass at place h. */
    ghost predicate Passing(t: Tree, first: nat, A: set<nat>, h: nat, overflow: nat, l0: seq<nat>, opt0: int,
        static0: int)
      requires Apart(t) && first <= h <= HEAP_SIZE
      reads heap, t.fc, t.dl, t`max_code, bl_count, `opt_len, `static_len
    {
      && Ready(t, first, A) && Fathers(first, Elems(t.kind), l0)
      && Lengths(heap[..], first, Elems(t.kind), l0, t.dl[..], MaxLength(t.kind), h)
      && overflow == Clipped(t.dl[..], Elems(t.kind), MaxLength(t.kind), first, h)
      && Added(t, Leaves(heap[..], first, h, Elems(t.kind)), opt0, static0)
    }

    /** One node of the first pass. */
    method PassOne(t: Tree, first: nat, ghost A: set<nat>, h: nat, overflow0: nat, ghost l0: seq<nat>,
        ghost opt0: int, ghost static0: int)
      returns (overflow: nat)
      requires Apart(t) && first <= h < HEAP_SIZE && Passing(t, first, A, h, overflow0, l0, opt0, static0)
      modifies `opt_len, `static_len, bl_count, t.dl
      ensures Passing(t, first, A, h + 1, overflow, l0, opt0, static0)
    {
      hide Layout, Added, Leaves, Clipped, Lengths;
      ghost var base := Elems(t.kind);
      var max := MaxLength(t.kind);
      var n := heap[h];
      ghost var hp, l, P := heap[..], t.dl[..], Leaves(heap[..], first, h, base);
      LengthsNext(hp, first, base, A, l0, l, max, h);
      NoFatherYet(hp, first, base, A, h);
      LeavesNext(hp, first, h, base);
      var bits := t.dl[t.dl[n]] + 1;
      ClippedNext(hp, first, base, A, l, Clip(bits, max), max, h);
      FatherClipped(hp, first, base, A, l0, l, max, h);
      overflow := overflow0;
      if bits > max { bits, overflow := max, overflow + 1; }
      SymbolOrNot(hp, first, base, A, h, t.max_code);
      if n > t.max_code {
        KeepAdded(t, n, bits, P, opt0, static0);
      } else {
        AddSymbol(t, n, bits, P, opt0, static0);
      }
    }

    /** The first pass of gen_bitlen: lengths from fathers, none above the limit. */
    method FirstPass(t: Tree, first: nat, ghost A: set<nat>) returns (overflow: nat)
      requires Apart(t) && Ready(t, first, A) && heap_max + 1 == first && Fathers(first, Elems(t.kind), t.dl[..])
      requires Lengths(heap[..], first, Elems(t.kind), t.dl[..], t.dl[..], MaxLength(t.kind), first)
      modifies `opt_len, `static_len, bl_count, t.dl
      ensures Ready(t, first, A) && Lengths(heap[..], first, Elems(t.kind), old(t.dl[..]), t.dl[..],
          MaxLength(t.kind), HEAP_SIZE)
      ensures overflow == Clipped(t.dl[..], Elems(t.kind), MaxLength(t.kind), first, HEAP_SIZE)
      ensures Added(t, A, old(opt_len), old(static_len))
    {
      hide Layout, Added, Leaves, Lengths;
      ghost var opt0, static0, l0 := opt_len, static_len, t.dl[..];
      ClearCounts();
      overflow := 0;
      var h := heap_max + 1;
      AddedNone(t);
      LeavesStart(heap[..], first, Elems(t.kind));
      while h < HEAP_SIZE
        invariant first <= h <= HEAP_SIZE && Passing(t, first, A, h, overflow, l0, opt0, static0)
      {
        overflow := PassOne(t, first, A, h, overflow, l0, opt0, static0);
        h := h + 1;
      }
      LeavesAll(heap[..], first, Elems(t.kind), A);
    }

    /** The repair of the counts: one leaf moves down to make room for one that is too deep,
        until the code words take exactly the space there is. */
    method Repair(max: nat, overflow0: nat, ghost size: nat)
      requires Shape() && 2 <= max < 16 && overflow0 % 2 == 0 && overflow0 > 0
      requires RepairOk(bl_count[..], max, overflow0 / 2, size) && size <= Pow2(max)
      modifies bl_count
      ensures RepairOk(bl_count[..], max, 0, size)
    {
      hide Space, Total, Shl, Pow2;
      var overflow := overflow0;
      while overflow > 0
        invariant overflow % 2 == 0 && RepairOk(bl_count[..], max, overflow / 2, size)
        decreases overflow
      {
        var bits: nat := max - 1;
        ghost var c := bl_count[..];
        while bl_count[bits] == 0
          invariant 1 <= bits < max && bl_count[..] == c && forall b :: bits < b < max ==> c[b] == 0
          decreases bits
        {
          MustMove(c, max, overflow / 2, size, bits);
          bits := bits - 1;
        }
        MoveDown(c, max, overflow / 2, size, bits);
        bl_count[bits] := bl_count[bits] - 1;
        bl_count[bits + 1] := bl_count[bits + 1] + 2;
        bl_count[max] := bl_count[max] - 1;
        overflow := overflow - 2;
      }
    }

    /** The invariant of the second pass at place h: the symbols from there on have their new
        lengths, as many of each as counted but for left of the present length bits; the others
        have their old lengths l1. */
    ghost predicate Assigning(t: Tree, first: nat, A: set<nat>, h: nat, bits: nat, left: nat, l1: seq<nat>, opt1: int)
      requires Apart(t) && first <= h <= HEAP_SIZE
      reads heap, t.fc, t.dl, t`max_code, bl_count, `opt_len
    {
      var base := Elems(t.kind);
      && Ready(t, first, A) && |l1| == t.dl.Length && bits < 16
      && AssignedOk(heap[..], t.fc[..], first, h, base, bl_count[..], bits, left, t.dl[..])
      && (forall x :: 0 <= x < |l1| && x !in Leaves(heap[..], h, HEAP_SIZE, base) ==> t.dl[x] == l1[x])
      && opt_len == opt1 + Cost(Leaves(heap[..], h, HEAP_SIZE, base), t.fc[..],
          t.dl[..]) - Cost(Leaves(heap[..], h, HEAP_SIZE, base), t.fc[..], l1)
    }

    /** The next node of the second pass. */
    method AssignNext(t: Tree, first: nat, ghost A: set<nat>, h: nat, bits: nat, left0: nat, ghost l1: seq<nat>,
        ghost opt1: int)
      returns (left: nat)
      requires Apart(t) && first <= h < HEAP_SIZE && Assigning(t, first, A, h + 1, bits, left0, l1, opt1) && left0 > 0
      modifies `opt_len, t.dl
      ensures Assigning(t, first, A, h, bits, left, l1, opt1)
    {
      hide Layout, Leaves, AssignedOk, Times;
      ghost var base := Elems(t.kind);
      ghost var hp, f, c, l, V := heap[..], t.fc[..], bl_count[..], t.dl[..], Leaves(heap[..], h + 1, HEAP_SIZE, base);
      NoFatherYet(hp, first, base, A, h);
      LeavesBefore(hp, h, base);
      SymbolOrNot(hp, first, base, A, h, t.max_code);
      var m := heap[h];
      if m > t.max_code {
        AssignedSkip(hp, f, first, h, base, A, c, bits, left0, l);
        return left0;
      }
      AssignedOne(hp, f, first, h, base, A, c, bits, left0, l);
      CostOne(V, f, l, l1, m, bits);
      if t.dl[m] != bits {
        opt_len := opt_len + (bits - t.dl[m]) * t.fc[m];
        t.dl[m] := bits;
      }
      assert t.dl[..] == l[m := bits];
      left := left0 - 1;
    }

    /** The second pass of gen_bitlen: the longest lengths go to the least frequent symbols. */
    method Reassign(t: Tree, first: nat, ghost A: set<nat>)
      requires Apart(t) && Ready(t, first, A) && RepairOk(bl_count[..], MaxLength(t.kind), 0, |A|)
      modifies `opt_len, t.dl
      ensures Ready(t, first, A) && Counted(A, t.dl[..], bl_count[..])
      ensures forall x :: x in A ==> 1 <= t.dl[x] <= MaxLength(t.kind)
      ensures forall p, q :: first <= p < q < HEAP_SIZE && heap[p] < Elems(t.kind) && heap[q] < Elems(t.kind) ==>
          t.dl[heap[p]] <= t.dl[heap[q]]
      ensures forall x :: 0 <= x < t.dl.Length && x !in A ==> t.dl[x] == old(t.dl[x])
      ensures opt_len == old(opt_len) + Cost(A, t.fc[..], t.dl[..]) - Cost(A, t.fc[..], old(t.dl[..]))
    {
      hide Layout, Leaves, AssignedOk, Space, Total;
      var max := MaxLength(t.kind);
      ghost var base, c, l1, opt1 := Elems(t.kind), bl_count[..], t.dl[..], opt_len;
      TotalAll(c, max, |A|);
      var h, bits := HEAP_SIZE, max;
      AssignedStart(heap[..], t.fc[..], first, base, c, bits, l1);
      NoLeaves(heap[..], base);
      while bits != 0
        invariant first <= h <= HEAP_SIZE && 0 <= bits <= max && bl_count[..] == c
        invariant Assigning(t, first, A, h, bits, c[bits], l1, opt1)
      {
        var n: nat := bl_count[bits];
        while n != 0
          invariant first <= h <= HEAP_SIZE && bl_count[..] == c && Assigning(t, first, A, h, bits, n, l1, opt1)
          decreases h
        {
          SymbolLeft(heap[..], t.fc[..], first, h, base, A, c, bits, n, t.dl[..]);
          h := h - 1;
          n := AssignNext(t, first, A, h, bits, n, l1, opt1);
        }
        NextLength(heap[..], t.fc[..], first, h, base, c, bits, t.dl[..]);
        bits := bits - 1;
      }
      AllAssigned(heap[..], t.fc[..], first, h, base, A, c, t.dl[..]);
      AssignedBound(heap[..], t.fc[..], first, h, base, A, c, t.dl[..]);
      CountedRange(A, t.dl[..], c, max);
      AssignedOrder(heap[..], t.fc[..], first, h, base, A, c, t.dl[..]);
    }

    /** gen_bitlen: lengths that fill the code space exactly, within the limit, and with no
        more frequent symbol ever longer; the cheapest there are when none was clipped. */
    method GenBitLen(t: Tree, ghost A: set<nat>, ghost merges: seq<Sons>) 
      requires Apart(t) && |merges| > 0 && 2 * |merges| < HEAP_SIZE && heap_max == HEAP_SIZE - 2 * |merges| - 1
      requires Ready(t, heap_max + 1, A) && Merged(A, t.fc[..], merges, Elems(t.kind))
          && Recorded(heap[..], t.dl[..], merges, Elems(t.kind))
      requires Active(A, merges, Elems(t.kind), |merges|) == {Elems(t.kind) + |merges| - 1}
          && heap[heap_max] == Elems(t.kind) + |merges| - 1
      requires Falling(heap[..], t.fc[..], heap_max + 1, Elems(t.kind) + |merges|) && |A| <= Pow2(MaxLength(t.kind))
      modifies `opt_len, `static_len, bl_count, t.dl
      ensures Counted(A, t.dl[..], bl_count[..]) && GoodLengths(A, t.fc[..], t.dl[..], MaxLength(t.kind))
      ensures opt_len == old(opt_len) + Cost(A, t.fc[..], t.dl[..]) + Cost(A, t.fc[..], ExtraOf(t.kind, t.fc.Length))
      ensures static_len == old(static_len) + StaticCost(t.kind, A, t.fc[..])
      ensures !Deep(A, merges, Elems(t.kind), MaxLength(t.kind)) ==> Cheapest(A, t.fc[..], t.dl[..])
      ensures !Deep(A, merges, Elems(t.kind), MaxLength(t.kind)) ==> AtDepth(A, merges, Elems(t.kind), t.dl[..])
      ensures forall x :: 0 <= x < Elems(t.kind) && x !in A ==> t.dl[x] == old(t.dl[x])
    {
      hide Layout, Merged, Recorded, Active, Falling, Clipped, Lengths, Cost, Kraft, Pow2, Hangs, GoodLengths, Cheapest,
           Deep, AtDepth, RepairOk, Counted;
      ghost var base, first, f, dl0 := Elems(t.kind), heap_max + 1, t.fc[..], t.dl[..];
      var max := MaxLength(t.kind);
      StartLengths(heap[..], f, t.dl[..], A, merges, base, max);
      t.dl[heap[heap_max]] := 0;
      ghost var l0 := t.dl[..];
      var overflow := FirstPass(t, heap_max + 1, A);
      ghost var l := t.dl[..];
      PassedLengths(heap[..], f, dl0, l0, l, A, merges, base, max, bl_count[..], overflow);
      OthersKept(heap[..], first, base, A, l0, l, max);
      if overflow != 0 {
        Repair(max, overflow, |A|);
        Reassign(t, heap_max + 1, A);
        RepairedLengths(heap[..], f, first, base, A, t.dl[..], bl_count[..], max, base + |merges|);
      }
    }

    // ---- build_tree ----

    /** Symbols that occur go on the heap. */
    method CollectSymbols(t: Tree) returns (ghost A: set<nat>)
      requires Apart(t)
      modifies heap, depth, `heap_len, `heap_max, t.dl, t`max_code
      ensures A == Occurring(t.fc[..], Elems(t.kind)) && heap_len <= Elems(t.kind)
      ensures NodesIn(heap[..], heap_len, Elems(t.kind)) && Bag(heap[..], heap_len) == multiset(A)
      ensures heap_max == HEAP_SIZE && MaxCode(A, t.max_code)
      ensures forall x :: 0 <= x < Elems(t.kind) && x !in A ==> t.dl[x] == 0
    {
      hide Bag, NodesIn, Occurring;
      var max_code := -1;
      heap_len, heap_max := 0, HEAP_SIZE;
      A := {};
      NoNodes(heap[..]);
      NoneOccur(t.fc[..]);
      BagEmpty(heap[..]);
      for n := 0 to Elems(t.kind)
        invariant A == Occurring(t.fc[..], n) && heap_len <= n && heap_max == HEAP_SIZE
        invariant NodesIn(heap[..], heap_len, n) && Bag(heap[..], heap_len) == multiset(A) && MaxCode(A, max_code)
        invariant forall x :: 0 <= x < n && x !in A ==> t.dl[x] == 0
      {
        OccurringNext(t.fc[..], n);
        WidenNodes(heap[..], heap_len, n, n + 1);
        if t.fc[n] != 0 {
          BagAdd(heap[..], heap_len, n, A);
          HeapAdd(heap[..], heap_len, n, n + 1);
          ghost var h := heap[..];
          heap_len := heap_len + 1;
          heap[heap_len] := n;
          assert heap[..] == h[heap_len := n];
          max_code := n;
          depth[n] := 0;
          A := A + {n};
        } else {
          t.dl[n] := 0;
        }
      }
      t.max_code := max_code;
    }

    /** The heap holds the symbols B: those of A, and others that were forced in. */
    ghost predicate Forcing(t: Tree, A: set<nat>, B: set<nat>, f0: seq<nat>, opt0: int, static0: int)
      requires Apart(t)
      reads heap, `heap_len, t.fc, `opt_len, `static_len
    {
      && |f0| == t.fc.Length
      && Forces(t.kind, A, B, f0, heap[..], heap_len, t.fc[..], opt_len - opt0, static_len - static0)
    }

    /** Force node in. */
    method ForceOne(t: Tree, node: nat, ghost A: set<nat>, ghost B: set<nat>, ghost f0: seq<nat>, ghost opt0: int,
        ghost static0: int)
      requires Apart(t) && Forcing(t, A, B, f0, opt0, static0) && heap_len < 2 && node !in B && node < 3
      modifies heap, depth, `heap_len, t.fc, `opt_len, `static_len
      ensures Forcing(t, A, B + {node}, f0, opt0, static0) && heap_len == old(heap_len) + 1
    {
      hide Forces, StaticLen;
      ghost var h, g := heap[..], t.fc[..];
      ForcesOne(t.kind, A, B, f0, h, heap_len, g, opt_len - opt0, static_len - static0, node);
      heap_len := heap_len + 1;
      heap[heap_len] := node;
      t.fc[node] := 1;
      depth[node] := 0;
      assert heap[..] == h[heap_len := node] && t.fc[..] == g[node := 1];
      opt_len := opt_len - 1;
      if t.kind != BLTREE { static_len := static_len - StaticLen(t.kind, node); }
    }

    /** At least two codes are made, so that one bit at least is sent for each. */
    method ForceTwo(t: Tree, ghost A: set<nat>) returns (ghost B: set<nat>)
      requires Apart(t) && Nodes(A, Elems(t.kind)) && heap_len <= Elems(t.kind) && MaxCode(A, t.max_code)
      requires NodesIn(heap[..], heap_len, Elems(t.kind)) && Bag(heap[..], heap_len) == multiset(A)
      modifies heap, depth, `heap_len, t.fc, t`max_code, `opt_len, `static_len
      ensures A <= B && 2 <= heap_len == |B| && MaxCode(B, t.max_code)
      ensures Forcing(t, A, B, old(t.fc[..]), old(opt_len), old(static_len))
    {
      hide Bag, NodesIn, Forced, StaticLen, XBits, Sum, MaxCode;
      B := A;
      var max_code := t.max_code;
      ForcedNone(t.kind, A, t.fc[..], StaticOf(t.kind, t.fc.Length));
      while heap_len < 2
        invariant A <= B && MaxCode(B, max_code) && Forcing(t, A, B, old(t.fc[..]), old(opt_len), old(static_len))
        decreases 2 - heap_len
      {
        BagSize(heap[..], heap_len, B);
        var node;
        node, max_code := NextSymbol(max_code, B);
        ForceOne(t, node, A, B, old(t.fc[..]), old(opt_len), old(static_len));
        B := B + {node};
      }
      BagSize(heap[..], heap_len, B);
      t.max_code := max_code;
    }

    /** Make a heap of the symbols. */
    method Heapify(t: Tree)
      requires Apart(t) && NodesIn(heap[..], heap_len, t.fc.Length)
      modifies heap
      ensures NodesIn(heap[..], heap_len, t.fc.Length) && HeapFrom(heap[..], heap_len, t.fc[..], depth[..], 1)
      ensures Bag(heap[..], heap_len) == old(Bag(heap[..], heap_len))
    {
      hide Bag, HeapFrom;
      var n := heap_len / 2;
      SonlessHeap(heap[..], heap_len, t.fc[..], depth[..]);
      while n >= 1
        invariant 0 <= n <= heap_len && NodesIn(heap[..], heap_len, t.fc.Length)
        invariant HeapFrom(heap[..], heap_len, t.fc[..], depth[..], n + 1)
        invariant Bag(heap[..], heap_len) == old(Bag(heap[..], heap_len))
      {
        PqDownHeap(heap, heap_len, t.fc, depth, n);
        n := n - 1;
      }
    }

    /** Merge until one node is left, and put it at the front of the finished array. */
    method MergeAll(t: Tree, ghost B: set<nat>) returns (ghost merges: seq<Sons>)
      requires Apart(t) && At(t, B, []) && heap_len >= 2 && Nodes(B, Elems(t.kind))
      requires forall x :: 0 <= x < Elems(t.kind) && x !in B ==> t.dl[x] == 0
      modifies heap, `heap_len, `heap_max, depth, t.fc, t.dl
      ensures |merges| > 0 && 2 * |merges| < HEAP_SIZE && heap_max == HEAP_SIZE - 2 * |merges| - 1
      ensures Merged(B, t.fc[..], merges, Elems(t.kind)) && Recorded(heap[..], t.dl[..], merges, Elems(t.kind))
      ensures Active(B, merges, Elems(t.kind), |merges|) == {Elems(t.kind) + |merges| - 1}
          && heap[heap_max] == Elems(t.kind) + |merges| - 1
      ensures Falling(heap[..], t.fc[..], heap_max + 1, Elems(t.kind) + |merges|)
      ensures forall x :: 0 <= x < Elems(t.kind) ==> t.fc[x] == old(t.fc[x])
      ensures forall x :: 0 <= x < Elems(t.kind) && x !in B ==> t.dl[x] == 0
    {
      hide Bag, HeapFrom, Building, Active;
      merges := [];
      var node := Elems(t.kind);
      while heap_len >= 2
        invariant At(t, B, merges) && heap_len >= 1 && node == Elems(t.kind) + |merges|
            && (|merges| == 0 ==> heap_len >= 2)
        invariant forall x :: 0 <= x < Elems(t.kind) ==> t.fc[x] == old(t.fc[x])
        invariant forall x :: 0 <= x < Elems(t.kind) && x !in B ==> t.dl[x] == 0
        decreases heap_len
      {
        NotActive(heap[..], heap_len, t.fc[..], t.dl[..], B, merges, Elems(t.kind));
        ghost var more := MergeTwo(t, node, B, merges);
        merges := more;
        node := node + 1;
      }
      LastNode(heap[..], t.fc[..], t.dl[..], B, merges, Elems(t.kind));
      ghost var h := heap[..];
      heap_max := heap_max - 1;
      heap[heap_max] := heap[1];
      RootPlaced(h, heap[..], t.fc[..], t.dl[..], merges, Elems(t.kind));
    }

    /** The whole tree is made: the finished heap array, and the fathers. */
    ghost predicate Grown(t: Tree, B: set<nat>, merges: seq<Sons>)
      requires Apart(t)
      reads heap, `heap_max, t.fc, t.dl, t`max_code
    {
      && |merges| > 0 && 2 * |merges| < HEAP_SIZE && heap_max == HEAP_SIZE - 2 * |merges| - 1
      && Ready(t, heap_max + 1, B) && Merged(B, t.fc[..], merges, Elems(t.kind))
          && Recorded(heap[..], t.dl[..], merges, Elems(t.kind))
      && Active(B, merges, Elems(t.kind), |merges|) == {Elems(t.kind) + |merges| - 1}
          && heap[heap_max] == Elems(t.kind) + |merges| - 1
      && Falling(heap[..], t.fc[..], heap_max + 1, Elems(t.kind) + |merges|) && |B| <= Pow2(MaxLength(t.kind))
      && |B| >= 2 && MaxCode(B, t.max_code) && forall x :: 0 <= x < Elems(t.kind) && x !in B ==> t.dl[x] == 0
    }

    /** Grow the tree, from the symbols that occur. */
    method GrowTree(t: Tree) returns (ghost A: set<nat>, ghost B: set<nat>, ghost f1: seq<nat>, ghost merges: seq<Sons>)
      requires Apart(t)
      modifies this, heap, depth, t.fc, t.dl, t`max_code
      ensures Grown(t, B, merges) && A == Occurring(old(t.fc[..]), Elems(t.kind))
      ensures Forced(t.kind, A, B, old(t.fc[..]), f1) && forall x :: 0 <= x < Elems(t.kind) ==> t.fc[x] == f1[x]
      ensures opt_len == old(opt_len) - |B - A|
      ensures static_len == old(static_len) - if t.kind == BLTREE then 0 else Sum(B - A, StaticOf(t.kind, t.fc.Length))
    {
      hide Bag, HeapFrom, Forced, Layout, Merged, Recorded, Active, Falling, Sum, StaticLen, XBits, Building, Occurring;
      ghost var f0 := t.fc[..];
      A := CollectSymbols(t);
      B := ForceTwo(t, A);
      WidenNodes(heap[..], heap_len, Elems(t.kind), t.fc.Length);
      Heapify(t);
      BuildingStart(heap[..], heap_len, t.fc[..], t.dl[..], B, Elems(t.kind));
      f1 := t.fc[..];
      ForcedIn(t.kind, A, B, f0, f1, t.dl[..], Elems(t.kind));
      merges := MergeAll(t, B);
      LaidOut(heap[..], t.fc[..], t.dl[..], B, merges, Elems(t.kind));
      MergedSize(B, t.fc[..], merges, Elems(t.kind));
      ElemsFit(t.kind, B);
    }

    /** Lengths and code words for a tree that is grown. */
    method FinishTree(t: Tree, ghost B: set<nat>, ghost merges: seq<Sons>)
      requires Apart(t) && Grown(t, B, merges)
      modifies this, bl_count, t.fc, t.dl
      ensures CodeLensOk(t.kind, B, t.dl[..], t.max_code) && CodesOk(t.fc[..], t.dl[..t.max_code + 1])
      ensures GoodLengths(B, old(t.fc[..]), t.dl[..], MaxLength(t.kind))
          && Best(t.kind, B, old(t.fc[..]), merges, t.dl[..])
      ensures opt_len == old(opt_len) + Cost(B, old(t.fc[..]), t.dl[..])
          + Cost(B, old(t.fc[..]), ExtraOf(t.kind, t.fc.Length))
      ensures static_len == old(static_len) + StaticCost(t.kind, B, old(t.fc[..]))
    {
      hide Layout, Merged, Recorded, Active, Falling, GoodLengths, Cheapest, Cost, Sum, CodesOk, StaticCost,
           StaticLen, XBits, Counted,
           Deep, AtDepth, Canonical.NotOver, Canonical.Complete, Canonical.Count, Pow2;
      ghost var freq := t.fc[..];
      GenBitLen(t, B, merges);
      LengthsDone(t.kind, B, freq, t.dl[..], bl_count[..], t.max_code);
      GenerateCodes(t.fc, t.dl, t.max_code + 1, bl_count);
    }

    /** build_tree: lengths and code words of a complete prefix code for the symbols that
        occur, and what they add to the two estimates of the length of the block. */
    method BuildTree(t: Tree) returns (ghost B: set<nat>, ghost freq: seq<nat>, ghost merges: seq<Sons>)
      requires Apart(t)
      modifies this, heap, depth, bl_count, t.fc, t.dl, t`max_code
      ensures Built(t, old(t.fc[..]), B, freq, merges)
      ensures opt_len == old(opt_len) + DynCost(t.kind, old(t.fc[..]), t.dl[..])
      ensures static_len == old(static_len) + StaticCost(t.kind, Occurring(old(t.fc[..]), Elems(t.kind)), old(t.fc[..]))
    {
      hide Forced, Layout, Merged, Recorded, Active, Falling, GoodLengths, Cheapest, Cost, Sum, CodesOk, StaticCost,
           StaticLen, XBits,
           DynCost, Ready, ForcedOnly, Occurring, Best, Fib;
      ghost var f0 := t.fc[..];
      ghost var A, f1;
      A, B, f1, merges := GrowTree(t);
      freq := t.fc[..];
      FinishTree(t, B, merges);
      ForcedFacts(t.kind, A, B, f0, f1, freq);
      FewIsCheapest(t.kind, A, B, f0, freq, merges, t.dl[..]);
      CostsDone(t.kind, A, B, f0, f1, freq, t.dl[..]);
    }
  }

  /** The counts take excess units too many of the space, for size codes in all; and there are
      more codes of the greatest length than that. */
  ghost predicate RepairOk(c: seq<nat>, max: nat, excess: nat, size: nat) {
    && |c| == 16 && 1 <= max < 16 && c[0] == 0 && (forall b :: max < b < 16 ==> c[b] == 0)
    && Space(c, max, max) == Pow2(max) + excess && Total(c, max) == size
    && c[max] >= excess + if excess > 0 then 1 else 0
  }

  /** While the counts take too much, there is a code above the limit that can move down. */
  lemma {:induction false} MustMove(c: seq<nat>, max: nat, excess: nat, size: nat, bits: nat)
    requires RepairOk(c, max, excess, size) && excess > 0 && size <= Pow2(max) && bits < max
    requires forall b :: bits <= b < max ==> c[b] == 0
    ensures bits > 1 && max > 1
  {
    hide Pow2;
    ShlUnit(c[max]);
    if bits <= 1 { SpaceZero(c, max, max - 1); }
  }

  lemma {:induction false} ShlUnit(v: nat)
    ensures Shl(v, 0) == v
  {
  }

  /** Moving a code down, and one too deep beside it, frees one unit. */
  lemma {:induction false} MoveDown(c: seq<nat>, max: nat, excess: nat, size: nat, bits: nat)
    requires RepairOk(c, max, excess, size) && excess > 0 && 1 <= bits < max && c[bits] > 0
    ensures var e := c[bits := c[bits] - 1];
            var g := e[bits + 1 := e[bits + 1] + 2];
            g[max] >= 1 && RepairOk(g[max := g[max] - 1], max, excess - 1, size)
  {
    hide Space, Total, Shl, Pow2;
    var e := c[bits := c[bits] - 1];
    var g := e[bits + 1 := e[bits + 1] + 2];
    SpaceUpdate(c, max, max, bits, c[bits] - 1);
    SpaceUpdate(e, max, max, bits + 1, e[bits + 1] + 2);
    SpaceUpdate(g, max, max, max, g[max] - 1);
    ShlAdd(c[bits] - 1, 1, max - bits);
    ShlAdd(e[bits + 1], 2, max - bits - 1);
    ShlDouble(1, max - bits - 1);
    ShlUnit(g[max]);
    ShlUnit(g[max] - 1);
  }
}
