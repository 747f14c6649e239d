/** The canonical Huffman code of section 3.2.2 of RFC 1951, as a function of the
    code lengths, seen as a partition of the interval [0, 2^15): a code of length l
    owns an aligned stretch of 2^(15-l) positions, and stretches follow each other in
    the order (length, symbol). */
module Canonical {
  import opened Bits

  const MAXBITS: nat := 15

  ghost predicate LensOk(lens: seq<nat>) {
    forall i :: 0 <= i < |lens| ==> lens[i] <= MAXBITS
  }

  /** How many symbols have length l. */
  function Count(lens: seq<nat>, l: nat): (n: nat)
    ensures n <= |lens|
  {
    if lens == [] then 0
    else Count(lens[..|lens| - 1], l) + (if lens[|lens| - 1] == l then 1 else 0)
  }

  function Counts(lens: seq<nat>): (c: seq<nat>)
    ensures |c| == MAXBITS + 1
    ensures forall l :: 0 <= l <= MAXBITS ==> c[l] == Count(lens, l)
  {
    seq(MAXBITS + 1, l requires 0 <= l <= MAXBITS => Count(lens, l))
  }

  /** Positions used by the codes of lengths 1..l. */
  function Kraft(cnt: seq<nat>, l: nat): nat
    requires |cnt| == MAXBITS + 1 && l <= MAXBITS
  {
    if l == 0 then 0 else Kraft(cnt, l - 1) + Shl(cnt[l], MAXBITS - l)
  }

  /** The smallest code of length l, by the recurrence of RFC 1951. */
  function FirstCode(cnt: seq<nat>, l: nat): nat
    requires |cnt| == MAXBITS + 1 && l <= MAXBITS
  {
    if l == 0 then 0 else 2 * (FirstCode(cnt, l - 1) + (if l == 1 then 0 else cnt[l - 1]))
  }

  ghost predicate Used(lens: seq<nat>, s: nat) {
    s < |lens| && 0 < lens[s] <= MAXBITS
  }

  function CodeVal(lens: seq<nat>, s: nat): nat
    requires s < |lens| && lens[s] <= MAXBITS
  {
    FirstCode(Counts(lens), lens[s]) + Count(lens[..s], lens[s])
  }

  /** The code word of s as it travels: most significant bit first. */
  function CodeBits(lens: seq<nat>, s: nat): (b: seq<bool>)
    requires s < |lens| && lens[s] <= MAXBITS
    ensures |b| == lens[s]
  {
    MsbBits(CodeVal(lens, s), lens[s])
  }

  /** First position owned by s, and how many. */
  function Start(lens: seq<nat>, s: nat): nat
    requires s < |lens| && 0 < lens[s] <= MAXBITS
  {
    Kraft(Counts(lens), lens[s] - 1) + Shl(Count(lens[..s], lens[s]), MAXBITS - lens[s])
  }

  function Size(lens: seq<nat>, s: nat): nat
    requires s < |lens| && 0 < lens[s] <= MAXBITS
  {
    Pow2(MAXBITS - lens[s])
  }

  ghost predicate NotOver(lens: seq<nat>) {
    Kraft(Counts(lens), MAXBITS) <= Pow2(MAXBITS)
  }

  ghost predicate Complete(lens: seq<nat>) {
    Kraft(Counts(lens), MAXBITS) == Pow2(MAXBITS)
  }

  /** No code at all, or one code of one bit: the incomplete sets that a decoder accepts. */
  ghost predicate Sparse(lens: seq<nat>) {
    (forall l :: 2 <= l <= MAXBITS ==> Count(lens, l) == 0) && Count(lens, 1) <= 1
  }

  // ---- counting ----

  lemma {:induction false} CountPrefix(lens: seq<nat>, s: nat, l: nat)
    requires s < |lens|
    ensures Count(lens[..s + 1], l) == Count(lens[..s], l) + (if lens[s] == l then 1 else 0)
  {
    assert lens[..s + 1][..s] == lens[..s];
  }

  lemma {:induction false} CountMono(lens: seq<nat>, s: nat, t: nat, l: nat)
    requires s <= t <= |lens|
    ensures Count(lens[..s], l) <= Count(lens[..t], l) <= Count(lens, l)
    ensures s < t && lens[s] == l ==> Count(lens[..s], l) < Count(lens[..t], l)
    decreases |lens| - s
  {
    if s < |lens| {
      CountPrefix(lens, s, l);
      if s < t {
        CountMono(lens, s + 1, t, l);
      } else {
        CountMono(lens, s + 1, s + 1, l);
      }
    } else {
      assert lens[..s] == lens;
    }
  }

  /** The k-th symbol of length l exists when k < Count(l). */
  lemma {:induction false} NthSymbol(lens: seq<nat>, l: nat, k: nat) returns (s: nat)
    requires k < Count(lens, l)
    ensures s < |lens| && lens[s] == l && Count(lens[..s], l) == k
  {
    var n := |lens| - 1;
    if k < Count(lens[..n], l) {
      s := NthSymbol(lens[..n], l, k);
      assert lens[..n][..s] == lens[..s];
    } else {
      s := n;
    }
  }

  lemma {:induction false} KraftMono(cnt: seq<nat>, k: nat, l: nat)
    requires |cnt| == MAXBITS + 1 && k <= l <= MAXBITS
    ensures Kraft(cnt, k) <= Kraft(cnt, l)
    decreases l
  {
    if k < l { KraftMono(cnt, k, l - 1); }
  }

  lemma {:induction false} FirstCodeKraft(cnt: seq<nat>, l: nat)
    requires |cnt| == MAXBITS + 1 && 1 <= l <= MAXBITS
    ensures Shl(FirstCode(cnt, l), MAXBITS - l) == Kraft(cnt, l - 1)
  {
    if l == 1 {
      Shl1(MAXBITS - l);
    } else {
      FirstCodeKraft(cnt, l - 1);
      var f, c := FirstCode(cnt, l - 1), cnt[l - 1];
      ShlDouble(f + c, MAXBITS - l);
      ShlAdd(f, c, MAXBITS - l + 1);
    }
  }

  /** The recurrence of RFC 1951 places every code at its stretch. */
  lemma {:induction false} StartIsCode(lens: seq<nat>, s: nat)
    requires Used(lens, s)
    ensures Start(lens, s) == Shl(CodeVal(lens, s), MAXBITS - lens[s])
  {
    hide Kraft;
    var l := lens[s];
    FirstCodeKraft(Counts(lens), l);
    ShlAdd(FirstCode(Counts(lens), l), Count(lens[..s], l), MAXBITS - l);
  }

  lemma {:induction false} EndInRange(lens: seq<nat>, s: nat)
    requires Used(lens, s)
    ensures Start(lens, s) + Size(lens, s) <= Kraft(Counts(lens), lens[s]) <= Kraft(Counts(lens), MAXBITS)
  {
    var l := lens[s];
    CountMono(lens, s, s + 1, l);
    CountMono(lens, s + 1, s + 1, l);
    ShlMono(Count(lens[..s], l), Count(lens, l), MAXBITS - l);
    KraftMono(Counts(lens), l, MAXBITS);
  }

  lemma {:induction false} CodeFits(lens: seq<nat>, s: nat)
    requires Used(lens, s) && NotOver(lens)
    ensures CodeVal(lens, s) < Pow2(lens[s])
  {
    var l := lens[s];
    var c := CodeVal(lens, s);
    EndInRange(lens, s);
    StartIsCode(lens, s);
    if c >= Pow2(l) {
      ShlMono(Pow2(l), c, MAXBITS - l);
      ShlPow2(l, MAXBITS - l);
    }
  }

  /** Stretches of different symbols do not meet, and lie in (length, symbol) order. */
  lemma {:induction false} Disjoint(lens: seq<nat>, s: nat, t: nat)
    requires Used(lens, s) && Used(lens, t)
    requires lens[s] < lens[t] || (lens[s] == lens[t] && s < t)
    ensures Start(lens, s) + Size(lens, s) <= Start(lens, t)
  {
    var l := lens[s];
    if lens[s] < lens[t] {
      EndInRange(lens, s);
      KraftMono(Counts(lens), l, lens[t] - 1);
    } else {
      CountMono(lens, s, t, l);
      ShlMono(Count(lens[..s], l), Count(lens[..t], l), MAXBITS - l);
    }
  }

  // ---- code words and positions ----

  /** A 15-bit window starts with the code word of s exactly when it lies in its stretch. */
  lemma {:induction false} WindowMatch(lens: seq<nat>, s: nat, w: seq<bool>)
    requires Used(lens, s) && NotOver(lens) && |w| == MAXBITS
    ensures CodeBits(lens, s) <= w <==> Start(lens, s) <= Msb(w) < Start(lens, s) + Size(lens, s)
  {
    var l := lens[s];
    var c := CodeVal(lens, s);
    CodeFits(lens, s);
    StartIsCode(lens, s);
    MsbMsbBits(c, l);
    MsbTakeDrop(w, l);
    ShlShrLow(Msb(w), MAXBITS - l);
    if CodeBits(lens, s) <= w {
      assert w[..l] == CodeBits(lens, s);
    }
    if Start(lens, s) <= Msb(w) < Start(lens, s) + Size(lens, s) {
      ShrLowUnique(Msb(w), MAXBITS - l, c, Msb(w) - Start(lens, s));
      MsbInjective(w[..l], CodeBits(lens, s));
    }
  }

  /** No code word is a prefix of another. */
  lemma {:induction false} PrefixFree(lens: seq<nat>, s: nat, t: nat, w: seq<bool>)
    requires Used(lens, s) && Used(lens, t) && NotOver(lens)
    requires CodeBits(lens, s) <= w && CodeBits(lens, t) <= w
    ensures s == t
  {
    var m := if lens[s] < lens[t] then lens[t] else lens[s];
    var x := w[..m] + Zeros(MAXBITS - m);
    assert CodeBits(lens, s) <= x;
    assert CodeBits(lens, t) <= x;
    WindowMatch(lens, s, x);
    WindowMatch(lens, t, x);
    if s != t {
      if lens[s] < lens[t] || (lens[s] == lens[t] && s < t) {
        Disjoint(lens, s, t);
      } else {
        Disjoint(lens, t, s);
      }
    }
  }

  lemma {:induction false} LevelOf(cnt: seq<nat>, p: nat, m: nat) returns (l: nat)
    requires |cnt| == MAXBITS + 1 && m <= MAXBITS && p < Kraft(cnt, m)
    ensures 1 <= l <= m && Kraft(cnt, l - 1) <= p < Kraft(cnt, l)
  {
    if p < Kraft(cnt, m - 1) {
      l := LevelOf(cnt, p, m - 1);
    } else {
      l := m;
    }
  }

  /** Every position below the Kraft sum belongs to a symbol. */
  lemma {:induction false} SymbolAt(lens: seq<nat>, p: nat) returns (s: nat)
    requires p < Kraft(Counts(lens), MAXBITS)
    ensures Used(lens, s) && Start(lens, s) <= p < Start(lens, s) + Size(lens, s)
  {
    var cnt := Counts(lens);
    var l := LevelOf(cnt, p, MAXBITS);
    var d := p - Kraft(cnt, l - 1);
    var k := Shr(d, MAXBITS - l);
    ShlShrLow(d, MAXBITS - l);
    if k >= cnt[l] {
      ShlMono(cnt[l], k, MAXBITS - l);
    }
    s := NthSymbol(lens, l, k);
  }

  /** A complete code has a code word at the start of every window. */
  lemma {:induction false} CompleteMatches(lens: seq<nat>, w: seq<bool>) returns (s: nat)
    requires Complete(lens) && |w| == MAXBITS
    ensures Used(lens, s) && CodeBits(lens, s) <= w
  {
    s := SymbolAt(lens, Msb(w));
    WindowMatch(lens, s, w);
  }

  // ---- decoding one symbol ----

  datatype Decoded = Sym(s: nat, n: nat) | NeedMore | NoCode

  ghost predicate Matches(lens: seq<nat>, s: nat, b: seq<bool>) {
    Used(lens, s) && CodeBits(lens, s) <= b
  }

  /** What the next bits b say: a symbol and the length of its code word, that more bits
      are needed to tell, or that no code word can follow. A code word that does not exist
      is noticed after one bit, since the only incomplete codes that are accepted have at
      most one code word, of one bit. */
  ghost function DecodeSym(lens: seq<nat>, b: seq<bool>): (d: Decoded)
    ensures d.Sym? ==> Matches(lens, d.s, b) && d.n == lens[d.s]
    ensures d.NoCode? ==> b != []
  {
    if exists s :: Matches(lens, s, b) then
      var s: nat :| Matches(lens, s, b);
      Sym(s, lens[s])
    else if Complete(lens) || b == [] then NeedMore
    else NoCode
  }

  /** Encoding then decoding a symbol gives it back, whatever follows. */
  lemma {:induction false} DecodeCode(lens: seq<nat>, s: nat, rest: seq<bool>)
    requires Used(lens, s) && NotOver(lens)
    ensures DecodeSym(lens, CodeBits(lens, s) + rest) == Sym(s, lens[s])
  {
    var b := CodeBits(lens, s) + rest;
    assert Matches(lens, s, b);
    var d := DecodeSym(lens, b);
    PrefixFree(lens, s, d.s, b);
  }

  /** A symbol, once found, does not change when more bits arrive. */
  lemma {:induction false} DecodeSymExtend(lens: seq<nat>, b: seq<bool>, more: seq<bool>)
    requires NotOver(lens)
    ensures DecodeSym(lens, b).Sym? ==> DecodeSym(lens, b + more) == DecodeSym(lens, b)
  {
    var d := DecodeSym(lens, b);
    if d.Sym? {
      assert Matches(lens, d.s, b + more);
      PrefixFree(lens, d.s, DecodeSym(lens, b + more).s, b + more);
    }
  }

  lemma {:induction false} SparseCode(lens: seq<nat>, s: nat)
    requires Used(lens, s) && Sparse(lens) && NotOver(lens)
    ensures lens[s] == 1 && Count(lens, 1) == 1 && CodeBits(lens, s) == [false]
  {
    CountMono(lens, s, s + 1, lens[s]);
    CountMono(lens, s + 1, s + 1, lens[s]);
    assert FirstCode(Counts(lens), 1) == 0;
    assert MsbBits(0, 1) == [false];
  }

  /** More bits do not change a decision already made. */
  lemma {:induction false} DecodeExtend(lens: seq<nat>, b: seq<bool>, more: seq<bool>)
    requires NotOver(lens) && (Complete(lens) || Sparse(lens))
    ensures DecodeSym(lens, b) != NeedMore ==> DecodeSym(lens, b + more) == DecodeSym(lens, b)
  {
    hide Kraft, CodeBits, Counts;
    DecodeSymExtend(lens, b, more);
    var d := DecodeSym(lens, b + more);
    if DecodeSym(lens, b) == NoCode && d.Sym? {
      SparseCode(lens, d.s);
      assert [false] <= b + more;
      assert (b + more)[0] == b[0];
      var m := Matches(lens, d.s, b);
    }
  }

  lemma {:induction false} KraftFlat(cnt: seq<nat>, k: nat, l: nat)
    requires |cnt| == MAXBITS + 1 && k <= l <= MAXBITS
    requires forall i :: k < i <= l ==> cnt[i] == 0
    ensures Kraft(cnt, l) == Kraft(cnt, k)
  {
    if k < l {
      KraftFlat(cnt, k, l - 1);
      Shl1(MAXBITS - l);
    }
  }

  lemma {:induction false} CountConcat(a: seq<nat>, b: seq<nat>, l: nat)
    ensures Count(a + b, l) == Count(a, l) + Count(b, l)
  {
    if b == [] {
      assert a + b == a;
    } else {
      var n := |b| - 1;
      CountConcat(a, b[..n], l);
      assert (a + b)[..|a + b| - 1] == a + b[..n];
    }
  }
}
