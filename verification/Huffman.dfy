/** Why merging the two least frequent nodes again and again gives a best code: for every
    assignment of lengths that a prefix code can have, there is one after the merge that is
    cheaper by what the merge costs. */
module Huffman {
  import opened Bits

  // ---- sums over sets of nodes ----

  ghost predicate Nodes(A: set<nat>, n: nat) {
    forall x :: x in A ==> x < n
  }

  ghost function Sum(A: set<nat>, v: seq<nat>): (r: nat)
    requires Nodes(A, |v|)
  {
    if A == {} then 0
    else
      var x :| x in A;
      Sum(A - {x}, v) + v[x]
  }

  lemma {:induction false} SumRemove(A: set<nat>, v: seq<nat>, x: nat)
    requires Nodes(A, |v|) && x in A
    ensures Sum(A, v) == Sum(A - {x}, v) + v[x]
    decreases |A|
  {
    var y: nat :| y in A && Sum(A, v) == Sum(A - {y}, v) + v[y];
    if x != y {
      SumRemove(A - {y}, v, x);
      SumRemove(A - {x}, v, y);
      assert A - {x} - {y} == A - {y} - {x};
    }
  }

  lemma {:induction false} SumAdd(A: set<nat>, v: seq<nat>, x: nat)
    requires Nodes(A, |v|) && x < |v| && x !in A
    ensures Nodes(A + {x}, |v|) && Sum(A + {x}, v) == Sum(A, v) + v[x]
  {
    SumRemove(A + {x}, v, x);
    assert A + {x} - {x} == A;
  }

  lemma {:induction false} SumSame(A: set<nat>, v: seq<nat>, w: seq<nat>)
    requires Nodes(A, |v|) && Nodes(A, |w|) && forall x :: x in A ==> v[x] == w[x]
    ensures Sum(A, v) == Sum(A, w)
    decreases |A|
  {
    if A != {} {
      var x :| x in A;
      SumRemove(A, v, x);
      SumRemove(A, w, x);
      SumSame(A - {x}, v, w);
    }
  }

  // ---- Kraft sum and cost ----

  /** The space that each length takes, of 2^d in all. */
  ghost function Shares(l: seq<nat>, d: nat): (w: seq<nat>)
    ensures |w| == |l| && forall x :: 0 <= x < |l| ==> w[x] == if l[x] <= d then Pow2(d - l[x]) else 0
  {
    seq(|l|, x requires 0 <= x < |l| => if l[x] <= d then Pow2(d - l[x]) else 0)
  }

  ghost function Times(a: nat, b: nat): nat {
    a * b
  }

  ghost function Weighted(f: seq<nat>, l: seq<nat>): (w: seq<nat>)
    requires |f| == |l|
    ensures |w| == |l| && forall x :: 0 <= x < |l| ==> w[x] == Times(f[x], l[x])
  {
    seq(|l|, x requires 0 <= x < |l| => Times(f[x], l[x]))
  }

  /** The space that the nodes of A take, of 2^d in all. TreeBuild.SpaceIsKraft and KraftScale tie
      it to the Kraft sum that Canonical takes over the counts of lengths. */
  ghost function Kraft(A: set<nat>, l: seq<nat>, d: nat): nat
    requires Nodes(A, |l|)
  {
    Sum(A, Shares(l, d))
  }

  /** The bits that the nodes take in all: frequency times length. */
  ghost function Cost(A: set<nat>, f: seq<nat>, l: seq<nat>): nat
    requires |f| == |l| && Nodes(A, |l|)
  {
    Sum(A, Weighted(f, l))
  }

  /** Lengths that a prefix code can have, none longer than d. */
  ghost predicate Feasible(A: set<nat>, l: seq<nat>, d: nat) {
    Nodes(A, |l|) && (forall x :: x in A ==> l[x] <= d) && Kraft(A, l, d) <= Pow2(d)
  }

  /** Doubling the space doubles what is taken. */
  lemma {:induction false} KraftDouble(A: set<nat>, l: seq<nat>, d: nat)
    requires Nodes(A, |l|) && forall x :: x in A ==> l[x] <= d
    ensures Kraft(A, l, d + 1) == 2 * Kraft(A, l, d)
    decreases |A|
  {
    hide Pow2;
    if A != {} {
      var x :| x in A;
      SumRemove(A, Shares(l, d + 1), x);
      SumRemove(A, Shares(l, d), x);
      KraftDouble(A - {x}, l, d);
      Pow2Step(d - l[x]);
    }
  }

  lemma {:induction false} Pow2Step(n: nat)
    ensures Pow2(n + 1) == 2 * Pow2(n) && Pow2(0) == 1
  {
  }

  // ---- exchanging two lengths ----

  lemma {:induction false} Exchange(a: nat, b: nat, s: nat, t: nat)
    requires a <= b && s <= t
    ensures Times(a, t) + Times(b, s) <= Times(a, s) + Times(b, t)
  {
    assert (b - a) * (t - s) >= 0;
    assert (b - a) * (t - s) == b * t - b * s - a * t + a * s;
  }

  /** Sum over A, seen from two of its nodes. */
  lemma {:induction false} SumTwo(A: set<nat>, v: seq<nat>, x: nat, y: nat)
    requires Nodes(A, |v|) && x in A && y in A && x != y
    ensures Sum(A, v) == Sum(A - {x, y}, v) + v[x] + v[y]
  {
    SumRemove(A, v, x);
    SumRemove(A - {x}, v, y);
    assert A - {x} - {y} == A - {x, y};
  }

  /** Giving the less frequent of two nodes the longer of their lengths costs no more. */
  lemma {:induction false} Swap(A: set<nat>, f: seq<nat>, l: seq<nat>, d: nat, x: nat, y: nat) returns (m: seq<nat>)
    requires |f| == |l| && Feasible(A, l, d) && x in A && y in A && f[x] <= f[y] && l[x] <= l[y]
    ensures m == l[x := l[y]][y := l[x]] && Feasible(A, m, d) && Cost(A, f, m) <= Cost(A, f, l)
  {
    hide Times, Pow2, Sum, Cost, Kraft;
    m := l[x := l[y]][y := l[x]];
    if x == y {
      assert m == l;
    } else {
      SwapKraft(A, l, m, d, x, y);
      SwapCost(A, f, l, m, x, y);
    }
  }

  lemma {:induction false} SwapKraft(A: set<nat>, l: seq<nat>, m: seq<nat>, d: nat, x: nat, y: nat)
    requires Nodes(A, |l|) && x in A && y in A && x != y && m == l[x := l[y]][y := l[x]]
    ensures Kraft(A, m, d) == Kraft(A, l, d)
  {
    hide Pow2, Sum;
    SumTwo(A, Shares(l, d), x, y);
    SumTwo(A, Shares(m, d), x, y);
    SumSame(A - {x, y}, Shares(l, d), Shares(m, d));
  }

  lemma {:induction false} SwapCost(A: set<nat>, f: seq<nat>, l: seq<nat>, m: seq<nat>, x: nat, y: nat)
    requires |f| == |l| && Nodes(A, |l|) && x in A && y in A && x != y && m == l[x := l[y]][y := l[x]]
        && f[x] <= f[y] && l[x] <= l[y]
    ensures Cost(A, f, m) <= Cost(A, f, l)
  {
    hide Times, Sum;
    SumTwo(A, Weighted(f, l), x, y);
    SumTwo(A, Weighted(f, m), x, y);
    SumSame(A - {x, y}, Weighted(f, l), Weighted(f, m));
    Exchange(f[x], f[y], l[x], l[y]);
  }

  // ---- one merge ----

  ghost predicate Least(A: set<nat>, f: seq<nat>, n: nat, m: nat)
    requires Nodes(A, |f|)
  {
    n in A && m in A && n != m && (forall x :: x in A ==> f[n] <= f[x])
        && (forall x :: x in A && x != n ==> f[m] <= f[x])
  }

  /** The nodes after n and m were given a common father. */
  ghost function Merge(A: set<nat>, n: nat, m: nat, node: nat): set<nat> {
    A - {n, m} + {node}
  }

  /** When both nodes have the longest length, their father can have one bit less. */
  lemma {:induction false} MergeDeepest(A: set<nat>, f: seq<nat>, l: seq<nat>, d: nat, n: nat, m: nat, node: nat)
      returns (l2: seq<nat>)
    requires |f| == |l| && Feasible(A, l, d + 1) && n in A && m in A && n != m && l[n] == d + 1 == l[m]
    requires node !in A && node < |l| && f[node] == f[n] + f[m]
    ensures |l2| == |l| && Feasible(Merge(A, n, m, node), l2, d + 1)
    ensures Cost(A, f, l) == f[n] + f[m] + Cost(Merge(A, n, m, node), f, l2)
  {
    hide Times, Pow2, Sum, Cost, Kraft;
    l2 := l[node := d];
    MergedKraft(A, l, l2, d, n, m, node);
    MergedCost(A, f, l, l2, d, n, m, node);
  }

  lemma {:induction false} MergedKraft(A: set<nat>, l: seq<nat>, l2: seq<nat>, d: nat, n: nat, m: nat, node: nat)
    requires Nodes(A, |l|) && n in A && m in A && n != m && l[n] == d + 1 == l[m] && node !in A && node < |l|
        && l2 == l[node := d]
    ensures Nodes(Merge(A, n, m, node), |l2|) && Kraft(Merge(A, n, m, node), l2, d + 1) == Kraft(A, l, d + 1)
  {
    hide Pow2, Sum;
    var B := A - {n, m};
    SumTwo(A, Shares(l, d + 1), n, m);
    SumSame(B, Shares(l, d + 1), Shares(l2, d + 1));
    SumAdd(B, Shares(l2, d + 1), node);
    Pow2Step(0);
  }

  lemma {:induction false} MergedCost(A: set<nat>, f: seq<nat>, l: seq<nat>, l2: seq<nat>, d: nat, n: nat, m: nat,
      node: nat)
    requires |f| == |l| && Nodes(A, |l|) && n in A && m in A && n != m && l[n] == d + 1 == l[m] && node !in A
        && node < |l| && l2 == l[node := d]
    requires f[node] == f[n] + f[m] && Nodes(Merge(A, n, m, node), |l2|)
    ensures Cost(A, f, l) == f[n] + f[m] + Cost(Merge(A, n, m, node), f, l2)
  {
    hide Times, Sum;
    var B := A - {n, m};
    SumTwo(A, Weighted(f, l), n, m);
    SumSame(B, Weighted(f, l), Weighted(f, l2));
    SumAdd(B, Weighted(f, l2), node);
    Distribute(f[n], f[m], d);
  }

  lemma {:induction false} Distribute(a: nat, b: nat, d: nat)
    ensures Times(a, d + 1) + Times(b, d + 1) == a + b + Times(a + b, d)
  {
    assert a * (d + 1) == a * d + a;
    assert b * (d + 1) == b * d + b;
    assert (a + b) * d == a * d + b * d;
  }

  /** Only one node has the longest length: it can do with one bit less. */
  lemma {:induction false} Shorten(A: set<nat>, f: seq<nat>, l: seq<nat>, d: nat, p: nat) returns (m: seq<nat>)
    requires |f| == |l| && Feasible(A, l, d + 1) && p in A && l[p] == d + 1 && forall x :: x in A && x != p ==>
        l[x] <= d
    ensures |m| == |l| && Feasible(A, m, d) && Cost(A, f, m) <= Cost(A, f, l)
  {
    hide Pow2, Times;
    m := l[p := d];
    var B := A - {p};
    SumRemove(A, Shares(l, d + 1), p);
    KraftDouble(B, l, d);
    Pow2Step(d);
    Pow2Step(0);
    SumRemove(A, Shares(m, d), p);
    SumSame(B, Shares(m, d), Shares(l, d));
    SumRemove(A, Weighted(f, l), p);
    SumRemove(A, Weighted(f, m), p);
    SumSame(B, Weighted(f, m), Weighted(f, l));
    TimesStep(f[p], d);
  }

  lemma {:induction false} TimesStep(a: nat, d: nat)
    ensures Times(a, d + 1) == Times(a, d) + a && Times(a, 0) == 0
  {
    assert a * (d + 1) == a * d + a;
  }

  lemma {:induction false} TooMany(A: set<nat>, l: seq<nat>, n: nat, m: nat)
    requires Nodes(A, |l|) && n in A && m in A && n != m && forall x :: x in A ==> l[x] == 0
    ensures Kraft(A, l, 0) >= 2
  {
    SumTwo(A, Shares(l, 0), n, m);
  }

  /** Whatever lengths the nodes have, after merging the two least frequent there are lengths
      that are cheaper by the frequency of their father. */
  lemma {:induction false} MergeStep(A: set<nat>, f: seq<nat>, l: seq<nat>, d: nat, n: nat, m: nat, node: nat)
    returns (l2: seq<nat>, d2: nat)
    requires |f| == |l| && Feasible(A, l, d) && Least(A, f, n, m)
    requires node !in A && node < |l| && f[node] == f[n] + f[m]
    ensures |l2| == |l| && Feasible(Merge(A, n, m, node), l2, d2)
    ensures Cost(A, f, l) >= f[node] + Cost(Merge(A, n, m, node), f, l2)
    decreases d
  {
    hide Kraft, Cost, Pow2;
    if d == 0 {
      TooMany(A, l, n, m);
      Pow2Step(0);
    } else if p: nat :| p in A && l[p] == d {
      if q: nat :| q in A && q != p && l[q] == d {
        var l1 := Swap(A, f, l, d, n, p);
        var q1 := if q == n then p else q;
        var l3 := Swap(A, f, l1, d, m, q1);
        l2 := MergeDeepest(A, f, l3, d - 1, n, m, node);
        d2 := d;
      } else {
        var l1 := Shorten(A, f, l, d - 1, p);
        l2, d2 := MergeStep(A, f, l1, d - 1, n, m, node);
      }
    } else {
      Lower(A, l, d - 1);
      l2, d2 := MergeStep(A, f, l, d - 1, n, m, node);
    }
  }

  lemma {:induction false} Lower(A: set<nat>, l: seq<nat>, d: nat)
    requires Feasible(A, l, d + 1) && forall x :: x in A ==> l[x] <= d
    ensures Feasible(A, l, d)
  {
    hide Kraft;
    KraftDouble(A, l, d);
    Pow2Step(d);
  }

  // ---- all merges ----

  /** The two sons of a merge; the father of merge i is node base + i. */
  datatype Sons = Sons(n: nat, m: nat)

  /** The nodes without a father after k merges. */
  ghost function Active(A: set<nat>, merges: seq<Sons>, base: nat, k: nat): set<nat>
    requires k <= |merges|
  {
    if k == 0 then A else Merge(Active(A, merges, base, k - 1), merges[k - 1].n, merges[k - 1].m, base + k - 1)
  }

  /** Merge k takes the two least frequent nodes that have no father yet. */
  ghost predicate MergedAt(A: set<nat>, f: seq<nat>, merges: seq<Sons>, base: nat, k: nat)
    requires k < |merges| && base + |merges| <= |f|
  {
    var B := Active(A, merges, base, k);
    && Nodes(B, base + k) && Least(B, f, merges[k].n, merges[k].m)
    && f[base + k] == f[merges[k].n] + f[merges[k].m]
  }

  ghost predicate Merged(A: set<nat>, f: seq<nat>, merges: seq<Sons>, base: nat) {
    && Nodes(A, base) && base + |merges| <= |f|
    && forall k: nat :: k < |merges| ==> MergedAt(A, f, merges, base, k)
  }

  lemma {:induction false} ActiveNodes(A: set<nat>, f: seq<nat>, merges: seq<Sons>, base: nat, k: nat)
    requires Merged(A, f, merges, base) && k <= |merges|
    ensures Nodes(Active(A, merges, base, k), base + k)
  {
    if k > 0 {
      var k1 := k - 1;
      assert MergedAt(A, f, merges, base, k1);
    }
  }

  lemma {:induction false} ActiveNext(A: set<nat>, merges: seq<Sons>, base: nat, k: nat)
    requires k < |merges|
    ensures Active(A, merges, base, k + 1) == Merge(Active(A, merges, base, k), merges[k].n, merges[k].m, base + k)
  {
  }

  /** The frequencies of the fathers of merges k and later. */
  ghost function FatherSum(f: seq<nat>, base: nat, k: nat, n: nat): nat
    requires k <= n && base + n <= |f|
    decreases n - k
  {
    if k == n then 0 else f[base + k] + FatherSum(f, base, k + 1, n)
  }

  /** No prefix code is cheaper than the merges. */
  lemma {:induction false} LowerBound(A: set<nat>, f: seq<nat>, merges: seq<Sons>, base: nat, k: nat, l: seq<nat>,
      d: nat)
    requires Merged(A, f, merges, base) && k <= |merges| && |l| == |f| && Feasible(Active(A, merges, base, k), l, d)
    ensures Cost(Active(A, merges, base, k), f, l) >= FatherSum(f, base, k, |merges|)
    decreases |merges| - k
  {
    hide Cost, Feasible, Active, Least, Merge;
    if k < |merges| {
      assert MergedAt(A, f, merges, base, k);
      ActiveNext(A, merges, base, k);
      var B := Active(A, merges, base, k);
      var l2, d2 := MergeStep(B, f, l, d, merges[k].n, merges[k].m, base + k);
      LowerBound(A, f, merges, base, k + 1, l2, d2);
    }
  }

  // ---- the lengths that the tree gives ----

  function Clip(n: nat, max: nat): nat {
    if n < max then n else max
  }

  ghost predicate HangsAt(l: seq<nat>, merges: seq<Sons>, base: nat, max: nat, i: nat)
    requires i < |merges| && base + |merges| <= |l|
  {
    && merges[i].n < |l| && merges[i].m < |l|
    && l[merges[i].n] == Clip(l[base + i] + 1, max) == l[merges[i].m]
  }

  /** Every node is one bit longer than its father, but no longer than max. */
  ghost predicate Hangs(l: seq<nat>, merges: seq<Sons>, base: nat, max: nat) {
    && base + |merges| <= |l| && |merges| > 0 && l[base + |merges| - 1] == 0
    && forall i: nat :: i < |merges| ==> HangsAt(l, merges, base, max, i)
  }

  /** How many of the fathers of merges k and later already have the greatest length. */
  ghost function Over(l: seq<nat>, base: nat, max: nat, k: nat, n: nat): nat
    requires k <= n && base + n <= |l|
    decreases n - k
  {
    if k == n then 0 else Over(l, base, max, k + 1, n) + if l[base + k] == max then 1 else 0
  }

  /** One at the nodes of length v. */
  ghost function OfLength(l: seq<nat>, v: nat): (w: seq<nat>)
    ensures |w| == |l| && forall x :: 0 <= x < |l| ==> w[x] == if l[x] == v then 1 else 0
  {
    seq(|l|, x requires 0 <= x < |l| => if l[x] == v then 1 else 0)
  }

  ghost function CountOf(A: set<nat>, l: seq<nat>, v: nat): nat
    requires Nodes(A, |l|)
  {
    Sum(A, OfLength(l, v))
  }

  lemma {:induction false} SumUnmerge(A: set<nat>, v: seq<nat>, n: nat, m: nat, node: nat)
    requires Nodes(A, |v|) && n in A && m in A && n != m && node !in A && node < |v|
    ensures Nodes(Merge(A, n, m, node), |v|) && Sum(A, v) + v[node] == Sum(Merge(A, n, m, node), v) + v[n] + v[m]
  {
    SumTwo(A, v, n, m);
    SumAdd(A - {n, m}, v, node);
  }

  lemma {:induction false} SumOne(v: seq<nat>, x: nat)
    requires x < |v|
    ensures Nodes({x}, |v|) && Sum({x}, v) == v[x]
  {
    SumRemove({x}, v, x);
    assert {x} - {x} == {};
  }

  /** The tree hangs from one root. */
  ghost predicate Rooted(A: set<nat>, f: seq<nat>, merges: seq<Sons>, base: nat, l: seq<nat>, max: nat) {
    && Merged(A, f, merges, base) && Hangs(l, merges, base, max) && max >= 1 && |l| == |f|
    && Active(A, merges, base, |merges|) == {base + |merges| - 1}
  }

  /** Clipping the lengths takes space that is not there: exactly one unit for each father that
      already has the greatest length. And there are more nodes of the greatest length than
      such fathers. */
  lemma {:induction false} TreeKraft(A: set<nat>, f: seq<nat>, merges: seq<Sons>, base: nat, l: seq<nat>, max: nat,
      k: nat)
    requires Rooted(A, f, merges, base, l, max) && k <= |merges|
    ensures var B := Active(A, merges, base, k);
            var o := Over(l, base, max, k, |merges|);
            Nodes(B, |l|) && Kraft(B, l, max) == Pow2(max) + o && (forall x :: x in B ==> l[x] <= max) &&
            CountOf(B, l, max) >= o + if o > 0 then 1 else 0
    decreases |merges| - k
  {
    ActiveNodes(A, f, merges, base, k);
    if k == |merges| {
      hide Pow2;
      SumOne(Shares(l, max), base + |merges| - 1);
    } else {
      TreeKraft(A, f, merges, base, l, max, k + 1);
      ActiveNext(A, merges, base, k);
      assert MergedAt(A, f, merges, base, k) && HangsAt(l, merges, base, max, k);
      UnmergeKraft(Active(A, merges, base, k), l, max, merges[k].n, merges[k].m, base + k,
          Over(l, base, max, k + 1, |merges|));
    }
  }

  lemma {:induction false} UnmergeKraft(B: set<nat>, l: seq<nat>, max: nat, n: nat, m: nat, node: nat, o: nat)
    requires Nodes(B, |l|) && n in B && m in B && n != m && node !in B && node < |l| && max >= 1
    requires l[n] == Clip(l[node] + 1, max) == l[m] && forall x :: x in Merge(B, n, m, node) ==> l[x] <= max
    requires Nodes(Merge(B, n, m, node), |l|) && Kraft(Merge(B, n, m, node), l, max) == Pow2(max) + o
    requires CountOf(Merge(B, n, m, node), l, max) >= o + if o > 0 then 1 else 0
    ensures var p := o + if l[node] == max then 1 else 0;
            Kraft(B, l, max) == Pow2(max) + p && (forall x :: x in B ==> l[x] <= max)
                && CountOf(B, l, max) >= p + if p > 0 then 1 else 0
  {
    hide Pow2;
    SumUnmerge(B, Shares(l, max), n, m, node);
    SumUnmerge(B, OfLength(l, max), n, m, node);
    assert node in Merge(B, n, m, node);
    if l[node] < max { Pow2Step(max - l[node] - 1); } else { Pow2Step(0); }
    SumHas(Merge(B, n, m, node), OfLength(l, max), node);
    forall x | x in B ensures l[x] <= max {
      assert x != n && x != m ==> x in Merge(B, n, m, node);
    }
  }

  lemma {:induction false} SumHas(A: set<nat>, v: seq<nat>, x: nat)
    requires Nodes(A, |v|) && x in A
    ensures Sum(A, v) >= v[x]
  {
    SumRemove(A, v, x);
  }

  lemma {:induction false} UnmergeCost(B: set<nat>, f: seq<nat>, l: seq<nat>, n: nat, m: nat, node: nat)
    requires Nodes(B, |l|) && n in B && m in B && n != m && node !in B && node < |l| == |f|
    requires l[n] == l[node] + 1 == l[m] && f[node] == f[n] + f[m]
    ensures Nodes(Merge(B, n, m, node), |l|) && Cost(B, f, l) == f[node] + Cost(Merge(B, n, m, node), f, l)
  {
    hide Times;
    SumUnmerge(B, Weighted(f, l), n, m, node);
    Distribute(f[n], f[m], l[node]);
  }

  /** When nothing was clipped, the cost of the lengths is the sum of the fathers. */
  lemma {:induction false} TreeCost(A: set<nat>, f: seq<nat>, merges: seq<Sons>, base: nat, l: seq<nat>, max: nat,
      k: nat)
    requires Rooted(A, f, merges, base, l, max) && k <= |merges| && Over(l, base, max, k, |merges|) == 0
    ensures Nodes(Active(A, merges, base, k), |l|)
    ensures Cost(Active(A, merges, base, k), f, l) == FatherSum(f, base, k, |merges|)
    decreases |merges| - k
  {
    ActiveNodes(A, f, merges, base, k);
    if k == |merges| {
      hide Times;
      var root := base + |merges| - 1;
      SumOne(Weighted(f, l), root);
      TimesStep(f[root], 0);
    } else {
      TreeCost(A, f, merges, base, l, max, k + 1);
      TreeKraft(A, f, merges, base, l, max, k + 1);
      ActiveNext(A, merges, base, k);
      assert MergedAt(A, f, merges, base, k) && HangsAt(l, merges, base, max, k);
      assert base + k in Active(A, merges, base, k + 1);
      UnmergeCost(Active(A, merges, base, k), f, l, merges[k].n, merges[k].m, base + k);
    }
  }

  /** Huffman's theorem: when no length had to be clipped, no prefix code is cheaper. */
  lemma {:induction false} Optimal(A: set<nat>, f: seq<nat>, merges: seq<Sons>, base: nat, l: seq<nat>, max: nat,
      l2: seq<nat>, d: nat)
    requires Rooted(A, f, merges, base, l, max) && Over(l, base, max, 0, |merges|) == 0
    requires |l2| == |l| && Feasible(A, l2, d)
    ensures Nodes(A, |l|) && Cost(A, f, l) <= Cost(A, f, l2)
  {
    hide Cost, Feasible, Merged, Hangs;
    TreeCost(A, f, merges, base, l, max, 0);
    LowerBound(A, f, merges, base, 0, l2, d);
  }

  /** A cheapest code never gives a less frequent symbol the shorter word. */
  lemma {:induction false} OptimalIsMonotone(A: set<nat>, f: seq<nat>, l: seq<nat>, d: nat, x: nat, y: nat)
    requires |f| == |l| && Feasible(A, l, d) && x in A && y in A && f[x] < f[y]
    requires Cost(A, f, l) <= Cost(A, f, l[x := l[y]][y := l[x]])
    ensures l[x] >= l[y]
  {
    hide Times, Pow2;
    if l[x] < l[y] {
      var m := l[x := l[y]][y := l[x]];
      SumTwo(A, Weighted(f, l), x, y);
      SumTwo(A, Weighted(f, m), x, y);
      SumSame(A - {x, y}, Weighted(f, l), Weighted(f, m));
      ExchangeStrict(f[x], f[y], l[x], l[y]);
    }
  }

  lemma {:induction false} ExchangeStrict(a: nat, b: nat, s: nat, t: nat)
    requires a < b && s < t
    ensures Times(a, t) + Times(b, s) < Times(a, s) + Times(b, t)
  {
    assert (b - a) * (t - s) > 0;
    assert (b - a) * (t - s) == b * t - b * s - a * t + a * s;
  }

  // ---- every node has its place ----

  /** A node that is active after k0 merges but not after k is a son of one of those between. */
  lemma {:induction false} HasFather(A: set<nat>, merges: seq<Sons>, base: nat, k0: nat, k: nat, x: nat)
      returns (i: nat)
    requires k0 <= k <= |merges| && x in Active(A, merges, base, k0) && x !in Active(A, merges, base, k)
    ensures k0 <= i < k && (merges[i].n == x || merges[i].m == x)
    decreases k
  {
    if x in Active(A, merges, base, k - 1) {
      i := k - 1;
    } else {
      i := HasFather(A, merges, base, k0, k - 1, x);
    }
  }

  /** A node that has a father is active no more. */
  lemma {:induction false} Gone(A: set<nat>, f: seq<nat>, merges: seq<Sons>, base: nat, i: nat, k: nat)
    requires Merged(A, f, merges, base) && i < k <= |merges|
    ensures merges[i].n < base + i && merges[i].m < base + i
    ensures merges[i].n !in Active(A, merges, base, k) && merges[i].m !in Active(A, merges, base, k)
    decreases k
  {
    assert MergedAt(A, f, merges, base, i);
    if i < k - 1 {
      Gone(A, f, merges, base, i, k - 1);
      ActiveNext(A, merges, base, k - 1);
    } else {
      ActiveNext(A, merges, base, i);
    }
  }

  /** Merging keeps the sum of the frequencies, so no father has a greater one. */
  lemma {:induction false} FrequencySum(A: set<nat>, f: seq<nat>, merges: seq<Sons>, base: nat, k: nat)
    requires Merged(A, f, merges, base) && k <= |merges|
    ensures Nodes(Active(A, merges, base, k), |f|) && Nodes(A, |f|) && Sum(Active(A, merges, base, k), f) == Sum(A, f)
    ensures k > 0 ==> f[base + k - 1] <= Sum(A, f)
    decreases k
  {
    ActiveNodes(A, f, merges, base, k);
    if k > 0 {
      FrequencySum(A, f, merges, base, k - 1);
      ActiveNext(A, merges, base, k - 1);
      assert MergedAt(A, f, merges, base, k - 1);
      var B := Active(A, merges, base, k - 1);
      SumUnmerge(B, f, merges[k - 1].n, merges[k - 1].m, base + k - 1);
      SumHas(Active(A, merges, base, k), f, base + k - 1);
    }
  }

  // ---- counts per length ----

  /** The space, of 2^max, that c[1..b] codes of lengths 0..b take. */
  ghost function Space(c: seq<nat>, max: nat, b: nat): nat
    requires b < |c| && b <= max
  {
    (if b == 0 then 0 else Space(c, max, b - 1)) + Shl(c[b], max - b)
  }

  ghost function Total(c: seq<nat>, b: nat): nat
    requires b < |c|
  {
    (if b == 0 then 0 else Total(c, b - 1)) + c[b]
  }

  /** c counts the nodes of A by their lengths. */
  ghost predicate Counted(A: set<nat>, l: seq<nat>, c: seq<nat>) {
    Nodes(A, |l|) && forall b :: 0 <= b < |c| ==> c[b] == CountOf(A, l, b)
  }

  lemma {:induction false} SpaceZero(c: seq<nat>, max: nat, b: nat)
    requires b < |c| && b <= max && forall i :: 0 <= i <= b ==> c[i] == 0
    ensures Space(c, max, b) == 0 == Total(c, b)
  {
    Shl1(max - b);
    if b > 0 { SpaceZero(c, max, b - 1); }
  }

  lemma {:induction false} SpaceSame(c: seq<nat>, e: seq<nat>, max: nat, b: nat)
    requires b < |c| && b < |e| && b <= max && forall i :: 0 <= i <= b ==> c[i] == e[i]
    ensures Space(c, max, b) == Space(e, max, b) && Total(c, b) == Total(e, b)
  {
    if b > 0 { SpaceSame(c, e, max, b - 1); }
  }

  /** Changing one count changes the space by what its codes take. */
  lemma {:induction false} SpaceUpdate(c: seq<nat>, max: nat, b: nat, i: nat, v: nat)
    requires i <= b < |c| && b <= max
    ensures Space(c[i := v], max, b) + Shl(c[i], max - i) == Space(c, max, b) + Shl(v, max - i)
    ensures Total(c[i := v], b) + c[i] == Total(c, b) + v
  {
    if i < b {
      SpaceUpdate(c, max, b - 1, i, v);
    } else if b > 0 {
      SpaceSame(c[i := v], c, max, b - 1);
    }
  }

  /** The counts by length tell the Kraft sum, and how many nodes there are. */
  lemma {:induction false} CountsTell(A: set<nat>, l: seq<nat>, c: seq<nat>, max: nat)
    requires Counted(A, l, c) && max < |c| && forall x :: x in A ==> l[x] <= max
    ensures Kraft(A, l, max) == Space(c, max, max) && |A| == Total(c, max)
    decreases |A|
  {
    hide Shl, Pow2, CountOf;
    if A == {} {
      CountNone(l, c);
      SpaceZero(c, max, max);
    } else {
      var x :| x in A;
      var e := c[l[x] := c[l[x]] - 1] by { CountHas(A, l, x); }
      CountLess(A, l, c, x);
      CountsTell(A - {x}, l, e, max);
      SpaceUpdate(c, max, max, l[x], c[l[x]] - 1);
      SumRemove(A, Shares(l, max), x);
      ShlAdd(c[l[x]] - 1, 1, max - l[x]);
      Shl1(max - l[x]);
      assert |A| == |A - {x}| + 1;
    }
  }

  lemma {:induction false} CountNone(l: seq<nat>, c: seq<nat>)
    requires Counted({}, l, c)
    ensures forall b :: 0 <= b < |c| ==> c[b] == 0
  {
  }

  lemma {:induction false} CountHas(A: set<nat>, l: seq<nat>, x: nat)
    requires Nodes(A, |l|) && x in A
    ensures CountOf(A, l, l[x]) >= 1
  {
    SumHas(A, OfLength(l, l[x]), x);
  }

  lemma {:induction false} CountLess(A: set<nat>, l: seq<nat>, c: seq<nat>, x: nat)
    requires Counted(A, l, c) && x in A && l[x] < |c|
    ensures c[l[x]] >= 1 && Counted(A - {x}, l, c[l[x] := c[l[x]] - 1])
  {
    CountHas(A, l, x);
    forall b | 0 <= b < |c| ensures CountOf(A - {x}, l, b) == c[b] - if l[x] == b then 1 else 0 {
      SumRemove(A, OfLength(l, b), x);
    }
  }

  lemma {:induction false} CountMore(A: set<nat>, l: seq<nat>, c: seq<nat>, x: nat)
    requires Counted(A, l, c) && x !in A && x < |l| && l[x] < |c|
    ensures Counted(A + {x}, l, c[l[x] := c[l[x]] + 1])
  {
    forall b | 0 <= b < |c| ensures CountOf(A + {x}, l, b) == c[b] + if l[x] == b then 1 else 0 {
      SumAdd(A, OfLength(l, b), x);
    }
  }

  /** Giving a length to a node outside A changes nothing about A. */
  lemma {:induction false} OutsideKeeps(A: set<nat>, f: seq<nat>, l: seq<nat>, c: seq<nat>, x: nat, v: nat)
    requires |f| == |l| && Counted(A, l, c) && x !in A && x < |l|
    ensures Cost(A, f, l[x := v]) == Cost(A, f, l) && Counted(A, l[x := v], c)
  {
    hide Times;
    SumSame(A, Weighted(f, l[x := v]), Weighted(f, l));
    forall b | 0 <= b < |c| ensures CountOf(A, l[x := v], b) == c[b] {
      SumSame(A, OfLength(l[x := v], b), OfLength(l, b));
    }
  }

  /** Adding a node to A with length v. */
  lemma {:induction false} NodeAdded(A: set<nat>, f: seq<nat>, l: seq<nat>, c: seq<nat>, x: nat, v: nat)
    requires |f| == |l| && Counted(A, l, c) && x !in A && x < |l| && v < |c|
    ensures Nodes(A + {x}, |l|) && Cost(A + {x}, f, l[x := v]) == Cost(A, f, l) + Times(f[x], v)
    ensures Counted(A + {x}, l[x := v], c[v := c[v] + 1])
  {
    hide Times;
    OutsideKeeps(A, f, l, c, x, v);
    SumAdd(A, Weighted(f, l[x := v]), x);
    CountMore(A, l[x := v], c, x);
  }
}
