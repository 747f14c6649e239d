/** How deep the symbols hang in a tree of merges, and how frequent they have to be for one to
    hang deep: with a total frequency below a Fibonacci number no length has to be limited. And
    lengths that a prefix code can have are those of the code words of some prefix code. */
module Depths {
  import opened Bits
  import opened Huffman

  // ---- depth ----

  /** How many fathers a node has above it, from merge k on. */
  ghost function Depth(merges: seq<Sons>, base: nat, x: nat, k: nat): nat
    decreases |merges| - k
  {
    if k >= |merges| then 0
    else if merges[k].n == x || merges[k].m == x then 1 + Depth(merges, base, base + k, k + 1)
    else Depth(merges, base, x, k + 1)
  }

  /** Some symbol hangs deeper than max. */
  ghost predicate Deep(A: set<nat>, merges: seq<Sons>, base: nat, max: nat) {
    exists x :: x in A && Depth(merges, base, x, 0) > max
  }

  /** A node without a father yet has none of the merges before it. */
  lemma {:induction false} DepthSkip(A: set<nat>, f: seq<nat>, merges: seq<Sons>, base: nat, x: nat, j: nat, k: nat)
    requires Merged(A, f, merges, base) && j <= k <= |merges| && x in Active(A, merges, base, k)
    ensures Depth(merges, base, x, j) == Depth(merges, base, x, k)
    decreases k - j
  {
    if j < k {
      Gone(A, f, merges, base, j, k);
      DepthSkip(A, f, merges, base, x, j + 1, k);
    }
  }

  lemma {:induction false} ClipStep(n: nat, max: nat)
    ensures Clip(Clip(n, max) + 1, max) == Clip(n + 1, max)
  {
  }

  /** The lengths of the nodes are their depths, but for the limit. */
  lemma {:induction false} LengthIsDepth(A: set<nat>, f: seq<nat>, merges: seq<Sons>, base: nat, l: seq<nat>,
      max: nat, x: nat, k: nat)
    requires Rooted(A, f, merges, base, l, max) && k <= |merges| && x in Active(A, merges, base, k)
    ensures x < |l| && l[x] == Clip(Depth(merges, base, x, k), max)
    decreases |merges| - k
  {
    hide Merged, Clip;
    if k == |merges| {
      assert Clip(0, max) == 0 by { ClipNone(max); }
    } else {
      assert HangsAt(l, merges, base, max, k);
      ActiveNext(A, merges, base, k);
      var y := if merges[k].n == x || merges[k].m == x then base + k else x;
      LengthIsDepth(A, f, merges, base, l, max, y, k + 1);
      ClipStep(Depth(merges, base, base + k, k + 1), max);
    }
  }

  lemma {:induction false} ClipNone(max: nat)
    ensures Clip(0, max) == 0
  {
  }

  /** Below the father of merge k there is a symbol that hangs deeper. */
  lemma {:induction false} DeeperSymbol(A: set<nat>, f: seq<nat>, merges: seq<Sons>, base: nat, k: nat) returns (x: nat)
    requires Merged(A, f, merges, base) && k < |merges|
    ensures x in A && Depth(merges, base, x, 0) > Depth(merges, base, base + k, k + 1)
    decreases k
  {
    assert MergedAt(A, f, merges, base, k);
    var y := merges[k].n;
    if y >= base {
      var j := y - base;
      x := DeeperSymbol(A, f, merges, base, j);
      DepthSkip(A, f, merges, base, y, j + 1, k);
    } else {
      x := y;
      SymbolActive(A, f, merges, base, k, y);
      DepthSkip(A, f, merges, base, y, 0, k);
    }
  }

  lemma {:induction false} SymbolActive(A: set<nat>, f: seq<nat>, merges: seq<Sons>, base: nat, k: nat, x: nat)
    requires Merged(A, f, merges, base) && k <= |merges| && x in Active(A, merges, base, k) && x < base
    ensures x in A
    decreases k
  {
    if k > 0 { SymbolActive(A, f, merges, base, k - 1, x); }
  }

  /** Some father already has the greatest length exactly if some symbol hangs deeper. */
  lemma {:induction false} OverIsDeep(A: set<nat>, f: seq<nat>, merges: seq<Sons>, base: nat, l: seq<nat>, max: nat)
    requires Rooted(A, f, merges, base, l, max)
    ensures Over(l, base, max, 0, |merges|) > 0 <==> Deep(A, merges, base, max)
  {
    hide Merged, Hangs, Active;
    assert base + |merges| <= |l| by { RootedSizes(A, f, merges, base, l, max); }
    if Over(l, base, max, 0, |merges|) > 0 {
      var k := OverAt(l, base, max, 0, |merges|);
      FatherLength(A, f, merges, base, l, max, k);
      var x := DeeperSymbol(A, f, merges, base, k);
      assert Deep(A, merges, base, max);
    }
    if x: nat :| x in A && Depth(merges, base, x, 0) > max {
      var k := FatherFrom(merges, base, x, 0);
      FatherLength(A, f, merges, base, l, max, k);
      OverCounts(l, base, max, 0, |merges|, k);
    }
  }

  lemma {:induction false} RootedSizes(A: set<nat>, f: seq<nat>, merges: seq<Sons>, base: nat, l: seq<nat>, max: nat)
    requires Rooted(A, f, merges, base, l, max)
    ensures base + |merges| <= |l| == |f|
  {
  }

  lemma {:induction false} FatherLength(A: set<nat>, f: seq<nat>, merges: seq<Sons>, base: nat, l: seq<nat>,
      max: nat, k: nat)
    requires Rooted(A, f, merges, base, l, max) && k < |merges|
    ensures base + k < |l| && (l[base + k] == max <==> Depth(merges, base, base + k, k + 1) >= max)
  {
    hide Merged, Hangs;
    ActiveNext(A, merges, base, k);
    LengthIsDepth(A, f, merges, base, l, max, base + k, k + 1);
  }

  /** The first father above x. */
  lemma {:induction false} FatherFrom(merges: seq<Sons>, base: nat, x: nat, j: nat) returns (k: nat)
    requires Depth(merges, base, x, j) > 0
    ensures k < |merges| && Depth(merges, base, x, j) == 1 + Depth(merges, base, base + k, k + 1)
    decreases |merges| - j
  {
    if merges[j].n == x || merges[j].m == x {
      k := j;
    } else {
      k := FatherFrom(merges, base, x, j + 1);
    }
  }

  lemma {:induction false} OverAt(l: seq<nat>, base: nat, max: nat, k: nat, n: nat) returns (i: nat)
    requires k <= n && base + n <= |l| && Over(l, base, max, k, n) > 0
    ensures k <= i < n && l[base + i] == max
    decreases n - k
  {
    if l[base + k] == max {
      i := k;
    } else {
      i := OverAt(l, base, max, k + 1, n);
    }
  }

  lemma {:induction false} OverCounts(l: seq<nat>, base: nat, max: nat, k: nat, n: nat, i: nat)
    requires k <= i < n && base + n <= |l|
    ensures l[base + i] == max ==> Over(l, base, max, k, n) > 0
    decreases n - k
  {
    if k < i { OverCounts(l, base, max, k + 1, n, i); }
  }

  /** When no symbol hangs deeper than max, the lengths are the depths. */
  lemma {:induction false} ShallowLengths(A: set<nat>, f: seq<nat>, merges: seq<Sons>, base: nat, l: seq<nat>, max: nat)
    requires Rooted(A, f, merges, base, l, max) && !Deep(A, merges, base, max)
    ensures forall x :: x in A ==> x < |l| && l[x] == Depth(merges, base, x, 0)
  {
    forall x | x in A
      ensures x < |l| && l[x] == Depth(merges, base, x, 0)
    {
      LengthIsDepth(A, f, merges, base, l, max, x, 0);
    }
  }

  // ---- how frequent a deep tree is ----

  function Fib(n: nat): nat {
    if n < 2 then n else Fib(n - 1) + Fib(n - 2)
  }

  /** n terms further in the sequence of Fibonacci that goes a, b, a + b. */
  function FibFrom(n: nat, a: nat, b: nat): nat
    decreases n
  {
    if n == 0 then b else FibFrom(n - 1, b, a + b)
  }

  lemma {:induction false} FibIs(n: nat, k: nat)
    ensures FibFrom(n, Fib(k), Fib(k + 1)) == Fib(k + 1 + n)
    decreases n
  {
    if n > 0 { FibIs(n - 1, k + 1); }
  }

  lemma {:induction false} FibFromMono(n: nat, a: nat, b: nat, c: nat, d: nat)
    requires a <= c && b <= d
    ensures FibFrom(n, a, b) <= FibFrom(n, c, d)
    decreases n
  {
    if n > 0 { FibFromMono(n - 1, b, a + b, d, c + d); }
  }

  lemma {:induction false} FibMono(m: nat, n: nat)
    requires m <= n
    ensures Fib(m) <= Fib(n)
    decreases n
  {
    if m < n {
      FibMono(m, n - 1);
      assert n >= 2 ==> Fib(n) == Fib(n - 1) + Fib(n - 2);
    }
  }

  /** Every node after a merge is at least as frequent as the sons of it. */
  lemma {:induction false} AtLeastSons(A: set<nat>, f: seq<nat>, merges: seq<Sons>, base: nat, i: nat)
    requires Merged(A, f, merges, base) && i < |merges|
    ensures merges[i].n < |f| && merges[i].m < |f|
    ensures forall y ::
      y in Active(A, merges, base, i + 1)
      ==> y < |f| && f[y] >= f[merges[i].n] && f[y] >= f[merges[i].m]
  {
    assert MergedAt(A, f, merges, base, i);
    ActiveNext(A, merges, base, i);
    var B := Active(A, merges, base, i);
    forall y | y in Active(A, merges, base, i + 1)
      ensures y < |f| && f[y] >= f[merges[i].n] && f[y] >= f[merges[i].m]
    {
      if y != base + i { assert y in B && y != merges[i].n; }
    }
  }

  /** The root above a node of depth d is at least so frequent, when no node is less frequent
      than a. */
  lemma {:induction false} DeepIsFrequent(A: set<nat>, f: seq<nat>, merges: seq<Sons>, base: nat, x: nat, k: nat,
      a: nat)
    requires Merged(A, f, merges, base) && k <= |merges| && x in Active(A, merges, base, k)
    requires |merges| > 0 && Active(A, merges, base, |merges|) == {base + |merges| - 1}
    requires forall y :: y in Active(A, merges, base, k) ==> y < |f| && f[y] >= a
    ensures x < |f| && base + |merges| <= |f|
    ensures f[base + |merges| - 1] >= FibFrom(Depth(merges, base, x, k), a, f[x])
    decreases |merges| - k
  {
    hide Active, Least, Merge;
    if k < |merges| {
      assert MergedAt(A, f, merges, base, k);
      var B, s := Active(A, merges, base, k), merges[k];
      NextActive(A, f, merges, base, k);
      if s.n == x || s.m == x {
        AtLeastSons(A, f, merges, base, k);
        DeepIsFrequent(A, f, merges, base, base + k, k + 1, f[x]);
        FibFromMono(Depth(merges, base, base + k, k + 1), f[x], a + f[x], f[x], f[base + k]);
      } else {
        DeepIsFrequent(A, f, merges, base, x, k + 1, a);
      }
    }
  }

  lemma {:induction false} NextActive(A: set<nat>, f: seq<nat>, merges: seq<Sons>, base: nat, k: nat)
    requires Merged(A, f, merges, base) && k < |merges|
    ensures var B, C, s := Active(A, merges, base, k), Active(A, merges, base, k + 1), merges[k];
            && s.n in B && s.m in B && s.n < |f| && s.m < |f| && base + k in C && f[base + k] == f[s.n] + f[s.m]
            && (forall y :: y in C ==> y == base + k || y in B)
                && (forall y :: y in B ==> y == s.n || y == s.m || y in C)
  {
    assert MergedAt(A, f, merges, base, k);
    ActiveNext(A, merges, base, k);
  }

  /** A symbol at depth d takes a total frequency of at least the Fibonacci number d + 2. */
  lemma {:induction false} DepthTakes(A: set<nat>, f: seq<nat>, merges: seq<Sons>, base: nat, x: nat)
    requires Merged(A, f, merges, base) && |merges| > 0 && Active(A, merges, base, |merges|) == {base + |merges| - 1}
    requires x in A && forall y :: y in A ==> y < |f| && f[y] >= 1
    ensures Nodes(A, |f|) && Sum(A, f) >= Fib(Depth(merges, base, x, 0) + 2)
  {
    var d := Depth(merges, base, x, 0);
    FrequencySum(A, f, merges, base, |merges|);
    DeepIsFrequent(A, f, merges, base, x, 0, 1);
    FibFromMono(d, 1, 1, 1, f[x]);
    FibIs(d, 1);
  }

  /** With a total frequency below the Fibonacci number max + 3 no symbol hangs deeper than max. */
  lemma {:induction false} RareIsShallow(A: set<nat>, f: seq<nat>, merges: seq<Sons>, base: nat, max: nat)
    requires Merged(A, f, merges, base) && |merges| > 0 && Active(A, merges, base, |merges|) == {base + |merges| - 1}
    requires Nodes(A, |f|) && (forall y :: y in A ==> f[y] >= 1) && Sum(A, f) < Fib(max + 3)
    ensures !Deep(A, merges, base, max)
  {
    hide Active, Merged, Sum, Fib;
    forall x | x in A
      ensures Depth(merges, base, x, 0) <= max
    {
      DepthTakes(A, f, merges, base, x);
      if Depth(merges, base, x, 0) > max { FibMono(max + 3, Depth(merges, base, x, 0) + 2); }
    }
  }

  lemma {:induction false} FibValues()
    ensures Fib(10) == 55 && Fib(18) == 2584
  {
    assert Fib(5) == 5 && Fib(6) == 8;
    assert Fib(8) == 21 && Fib(9) == 34;
    assert Fib(11) == 89 && Fib(12) == 144;
    assert Fib(14) == 377 && Fib(15) == 610;
    assert Fib(17) == 1597;
  }

  // ---- prefix codes ----

  /** Code words for the symbols of A, none the beginning of another. */
  ghost predicate PrefixFree(A: set<nat>, words: seq<seq<bool>>) {
    && Nodes(A, |words|)
    && forall x, y :: x in A && y in A && x != y ==> !(words[x] <= words[y])
  }

  ghost function Lens(words: seq<seq<bool>>): (l: seq<nat>)
    ensures |l| == |words| && forall i :: 0 <= i < |l| ==> l[i] == |words[i]|
  {
    seq(|words|, i requires 0 <= i < |words| => |words[i]|)
  }

  /** The words without their first bit. */
  ghost function Tails(words: seq<seq<bool>>): (w: seq<seq<bool>>)
    ensures |w| == |words| && forall i :: 0 <= i < |w| ==> w[i] == if words[i] == [] then [] else words[i][1..]
  {
    seq(|words|, i requires 0 <= i < |words| => if words[i] == [] then [] else words[i][1..])
  }

  /** The symbols of A whose words begin with bit b. */
  ghost function Begin(A: set<nat>, words: seq<seq<bool>>, b: bool): set<nat>
    requires Nodes(A, |words|)
  {
    set x | x in A && words[x] != [] && words[x][0] == b
  }

  lemma {:induction false} TailsFree(A: set<nat>, words: seq<seq<bool>>, b: bool)
    requires PrefixFree(A, words)
    ensures PrefixFree(Begin(A, words, b), Tails(words))
  {
    var B, w := Begin(A, words, b), Tails(words);
    forall x, y | x in B && y in B && x != y
      ensures !(w[x] <= w[y])
    {
      assert words[x] == [b] + w[x] && words[y] == [b] + w[y];
      PrefixCons(b, w[x], w[y]);
    }
  }

  lemma {:induction false} PrefixCons(b: bool, u: seq<bool>, v: seq<bool>)
    ensures u <= v ==> [b] + u <= [b] + v
  {
  }

  lemma {:induction false} SumUnion(A: set<nat>, B: set<nat>, v: seq<nat>)
    requires Nodes(A, |v|) && Nodes(B, |v|) && A !! B
    ensures Nodes(A + B, |v|) && Sum(A + B, v) == Sum(A, v) + Sum(B, v)
    decreases |B|
  {
    if B == {} {
      assert A + B == A;
    } else {
      var x :| x in B;
      SumUnion(A, B - {x}, v);
      SumRemove(B, v, x);
      SumAdd(A + (B - {x}), v, x);
      assert A + (B - {x}) + {x} == A + B;
    }
  }

  lemma {:induction false} ShareOfTail(A: set<nat>, words: seq<seq<bool>>, d: nat)
    requires Nodes(A, |words|) && (forall x :: x in A ==> words[x] != [])
    ensures Kraft(A, Lens(words), d + 1) == Kraft(A, Lens(Tails(words)), d)
  {
    hide Pow2, Sum;
    var v, w := Shares(Lens(words), d + 1), Shares(Lens(Tails(words)), d);
    assert forall x :: x in A ==> v[x] == w[x];
    SumSame(A, v, w);
  }

  /** The words of a prefix code take no more than all of the space. */
  lemma {:induction false} PrefixFreeFits(A: set<nat>, words: seq<seq<bool>>, d: nat)
    requires PrefixFree(A, words) && forall x :: x in A ==> |words[x]| <= d
    ensures Kraft(A, Lens(words), d) <= Pow2(d)
    decreases d
  {
    hide Kraft, Pow2;
    if e: nat :| e in A && words[e] == [] {
      forall x | x in A ensures x == e { assert words[e] <= words[x]; }
      assert A == {e};
      OneWord(words, e, d);
    } else if d == 0 {
      assert forall x :: x !in A;
      assert A == {};
      NoWords(words, d);
    } else {
      var A0, A1, w := Begin(A, words, false), Begin(A, words, true), Tails(words);
      assert A == A0 + A1;
      TailsFree(A, words, false);
      TailsFree(A, words, true);
      PrefixFreeFits(A0, w, d - 1);
      PrefixFreeFits(A1, w, d - 1);
      ShareOfTail(A0, words, d - 1);
      ShareOfTail(A1, words, d - 1);
      KraftUnion(A0, A1, Lens(words), d);
      Pow2Step(d - 1);
    }
  }

  lemma {:induction false} KraftUnion(A: set<nat>, B: set<nat>, l: seq<nat>, d: nat)
    requires Nodes(A, |l|) && Nodes(B, |l|) && A !! B
    ensures Nodes(A + B, |l|) && Kraft(A + B, l, d) == Kraft(A, l, d) + Kraft(B, l, d)
  {
    hide Sum;
    SumUnion(A, B, Shares(l, d));
  }

  lemma {:induction false} OneWord(words: seq<seq<bool>>, e: nat, d: nat)
    requires e < |words| && words[e] == []
    ensures Nodes({e}, |words|) && Kraft({e}, Lens(words), d) == Pow2(d)
  {
    hide Pow2;
    SumOne(Shares(Lens(words), d), e);
  }

  lemma {:induction false} NoWords(words: seq<seq<bool>>, d: nat)
    ensures Kraft({}, Lens(words), d) == 0
  {
  }

  /** So the lengths of the words of every prefix code are feasible. */
  lemma {:induction false} PrefixFreeFeasible(A: set<nat>, words: seq<seq<bool>>) returns (d: nat)
    requires PrefixFree(A, words)
    ensures Feasible(A, Lens(words), d)
  {
    d := Longest(words);
    PrefixFreeFits(A, words, d);
  }

  lemma {:induction false} Longest(words: seq<seq<bool>>) returns (d: nat)
    ensures forall x :: 0 <= x < |words| ==> |words[x]| <= d
    decreases |words|
  {
    d := 0;
    if words != [] {
      var n := |words| - 1;
      var e := Longest(words[..n]);
      d := if |words[n]| > e then |words[n]| else e;
      forall x | 0 <= x < |words|
        ensures |words[x]| <= d
      {
        if x < n { assert words[..n][x] == words[x]; }
      }
    }
  }
}
