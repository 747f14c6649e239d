/** inflate_table (inftrees.c): the two-level decoding tables of a canonical code. */
module InfTrees {
  import opened Bits
  import opened Canonical

  datatype CodeType = CODES | LENS | DISTS

  /** A table entry: op tells a symbol (0), a sub-table (1..15), a base value with extra
      bits (16 + n), the end of the block (96) or an invalid code (bit 6 set). */
  datatype Code = Code(op: nat, bits: nat, val: nat)

  const ENOUGH_LENS: nat := 852
  const ENOUGH_DISTS: nat := 592

  /** The tables lbase, lext, dbase and dext of inflate_table, with entries for the symbols that
      must not occur; where the format has a base or extra bits, they are those of Rfc1951. */
  function LBase(i: nat): nat
    requires i < 31
  {
    [3, 4, 5, 6, 7, 8, 9, 10, 11, 13, 15, 17, 19, 23, 27, 31,
     35, 43, 51, 59, 67, 83, 99, 115, 131, 163, 195, 227, 258, 0, 0][i]
  }

  function LExt(i: nat): nat
    requires i < 31
  {
    [16, 16, 16, 16, 16, 16, 16, 16, 17, 17, 17, 17, 18, 18, 18, 18,
     19, 19, 19, 19, 20, 20, 20, 20, 21, 21, 21, 21, 16, 203, 77][i]
  }

  function DBase(i: nat): nat
    requires i < 32
  {
    [1, 2, 3, 4, 5, 7, 9, 13, 17, 25, 33, 49, 65, 97, 129, 193,
     257, 385, 513, 769, 1025, 1537, 2049, 3073, 4097, 6145,
     8193, 12289, 16385, 24577, 0, 0][i]
  }

  function DExt(i: nat): nat
    requires i < 32
  {
    [16, 16, 16, 16, 17, 17, 18, 18, 19, 19, 20, 20, 21, 21, 22, 22,
     23, 23, 24, 24, 25, 25, 26, 26, 27, 27, 28, 28, 29, 29, 64, 64][i]
  }

  const INVALID: Code := Code(64, 1, 0)

  ghost predicate SymbolsFit(typ: CodeType, n: nat) {
    match typ
    case CODES => n <= 19
    case LENS => n <= 288
    case DISTS => n <= 32
  }

  /** What a table says about symbol s after n bits of its code have been looked up. */
  function Entry(typ: CodeType, s: nat, n: nat): (e: Code)
    requires SymbolsFit(typ, s + 1)
    ensures e.bits == n
  {
    match typ
    case CODES => Code(0, n, s)
    case LENS => if s < 256 then Code(0, n, s) else if s == 256 then Code(96, n, 0)
                 else Code(LExt(s - 257), n, LBase(s - 257))
    case DISTS => Code(DExt(s), n, DBase(s))
  }

  /** Every index that starts with the code of s leads, in one or two steps, to s. */
  ghost predicate Filled(T: seq<Code>, at: nat, root: nat, typ: CodeType, lens: seq<nat>, s: nat)
    requires Used(lens, s) && SymbolsFit(typ, |lens|) && at + Pow2(root) <= |T|
  {
    var cb := CodeBits(lens, s);
    if lens[s] <= root then
      FilledAt(T, at, root, cb, Entry(typ, s, lens[s]))
    else
      var p := T[at + FromBits(cb[..root])];
      && 0 < p.op && root + p.op <= MAXBITS && p.bits == root && lens[s] - root <= p.op
      && Pow2(root) <= p.val && at + p.val + Pow2(p.op) <= |T|
      && FilledAt(T, at + p.val, p.op, cb[root..], Entry(typ, s, lens[s] - root))
  }

  ghost predicate FilledAt(T: seq<Code>, base: nat, n: nat, cb: seq<bool>, e: Code)
    requires base + Pow2(n) <= |T|
  {
    forall i :: 0 <= i < Pow2(n) && cb <= ToBits(i, n) ==> T[base + i] == e
  }

  ghost predicate TableOk(T: seq<Code>, at: nat, root: nat, typ: CodeType, lens: seq<nat>) {
    && SymbolsFit(typ, |lens|) && LensOk(lens) && NotOver(lens)
    && 1 <= root <= MAXBITS && at + Pow2(root) <= |T|
    && (typ == CODES ==> forall i :: 0 <= i < |lens| ==> lens[i] <= root)
    && (forall s :: Used(lens, s) ==> Filled(T, at, root, typ, lens, s))
    && (!Complete(lens) ==>
          Sparse(lens) && root == 1 && T[at + 1] == INVALID &&
          (Count(lens, 1) == 0 ==> T[at] == INVALID))
  }

  // ---- order of the symbols ----

  ghost predicate Precedes(lens: seq<nat>, s: nat, t: nat)
    requires s < |lens| && t < |lens|
  {
    lens[s] < lens[t] || (lens[s] == lens[t] && s < t)
  }

  /** work lists the used symbols by length and then by symbol. */
  ghost predicate Sorted(lens: seq<nat>, work: seq<nat>) {
    && (forall i :: 0 <= i < |work| ==> Used(lens, work[i]))
    && (forall i, j :: 0 <= i < j < |work| ==> Precedes(lens, work[i], work[j]))
    && (forall s :: Used(lens, s) ==> s in work)
  }

  /** Codes of lengths 1..l. */
  function Below(lens: seq<nat>, l: nat): nat {
    if l == 0 then 0 else Below(lens, l - 1) + Count(lens, l)
  }

  method CountLengths(lens: seq<nat>) returns (count: array<nat>)
    requires LensOk(lens)
    ensures fresh(count) && count[..] == Counts(lens)
  {
    count := new nat[MAXBITS + 1](i => 0);
    for sym := 0 to |lens|
      invariant forall l :: 0 <= l <= MAXBITS ==> count[l] == Count(lens[..sym], l)
    {
      forall l ensures Count(lens[..sym + 1], l) == Count(lens[..sym], l) + (if lens[sym] == l then 1 else 0) {
        CountPrefix(lens, sym, l);
      }
      count[lens[sym]] := count[lens[sym]] + 1;
    }
    assert lens[..|lens|] == lens;
  }

  lemma {:induction false} BelowStep(lens: seq<nat>, l: nat)
    requires lens != []
    ensures Below(lens, l) == Below(lens[..|lens| - 1], l) + (if 1 <= lens[|lens| - 1] <= l then 1 else 0)
  {
    if l > 0 { BelowStep(lens, l - 1); }
  }

  lemma {:induction false} BelowBound(lens: seq<nat>, l: nat)
    ensures Below(lens, l) <= |lens|
  {
    if lens == [] {
      if l > 0 { BelowBound(lens, l - 1); }
    } else {
      BelowStep(lens, l);
      BelowBound(lens[..|lens| - 1], l);
    }
  }

  lemma {:induction false} BelowMono(lens: seq<nat>, k: nat, l: nat)
    requires k <= l
    ensures Below(lens, k) <= Below(lens, l)
  {
    if k < l { BelowMono(lens, k, l - 1); }
  }

  lemma {:induction false} BelowLevel(lens: seq<nat>, k: nat, m: nat) returns (l: nat)
    requires k < Below(lens, m)
    ensures 1 <= l <= m && Below(lens, l - 1) <= k < Below(lens, l)
  {
    if k < Below(lens, m - 1) {
      l := BelowLevel(lens, k, m - 1);
    } else {
      l := m;
    }
  }

  /** Index k, in the stretch of length l, holds its symbol. */
  ghost predicate Placed(lens: seq<nat>, s: nat, l: nat, k: nat)
    requires l >= 1
  {
    s < |lens| && lens[s] == l && Below(lens, l - 1) + Count(lens[..s], l) == k
  }

  ghost predicate AllPlaced(lens: seq<nat>, work: seq<nat>, l: nat, to: nat)
    requires l >= 1 && to <= |work|
  {
    forall k :: Below(lens, l - 1) <= k < to ==> Placed(lens, work[k], l, k)
  }

  lemma {:induction false} PlacedSorted(lens: seq<nat>, work: seq<nat>)
    requires LensOk(lens) && |work| == Below(lens, MAXBITS)
    requires forall l :: 1 <= l <= MAXBITS ==> Below(lens, l) <= |work| && AllPlaced(lens, work, l, Below(lens, l))
    ensures Sorted(lens, work)
  {
    forall i | 0 <= i < |work| ensures Used(lens, work[i]) {
      var l := BelowLevel(lens, i, MAXBITS);
      assert Placed(lens, work[i], l, i);
    }
    forall i, j | 0 <= i < j < |work| ensures Precedes(lens, work[i], work[j]) {
      var l := BelowLevel(lens, i, MAXBITS);
      var m := BelowLevel(lens, j, MAXBITS);
      assert Placed(lens, work[i], l, i);
      assert Placed(lens, work[j], m, j);
      if m < l { BelowMono(lens, m, l - 1); }
      if m == l && work[j] <= work[i] {
        CountMono(lens, work[j], work[i], l);
      }
    }
    forall s: nat | Used(lens, s) ensures s in work {
      var l := lens[s];
      var k := Below(lens, l - 1) + Count(lens[..s], l);
      CountMono(lens, s, s + 1, l);
      CountMono(lens, s + 1, s + 1, l);
      BelowMono(lens, l, MAXBITS);
      var t := work[k];
      assert Placed(lens, t, l, k);
      if t < s { CountMono(lens, t, s, l); } else if s < t { CountMono(lens, s, t, l); }
    }
  }

  /** Next free index of the stretch of length l when the first n symbols are placed. */
  function Offset(lens: seq<nat>, n: nat, l: nat): nat
    requires l >= 1 && n <= |lens|
  {
    Below(lens, l - 1) + Count(lens[..n], l)
  }

  lemma {:induction false} OffsetStep(lens: seq<nat>, n: nat, l: nat)
    requires l >= 1 && n < |lens|
    ensures Offset(lens, n + 1, l) == Offset(lens, n, l) + (if lens[n] == l then 1 else 0)
    ensures Offset(lens, n + 1, l) <= Below(lens, l)
  {
    CountPrefix(lens, n, l);
    CountMono(lens, n + 1, n + 1, l);
  }

  ghost predicate Placing(lens: seq<nat>, work: seq<nat>, n: nat)
    requires n <= |lens|
  {
    forall l :: 1 <= l <= MAXBITS ==> Offset(lens, n, l) <= |work| && AllPlaced(lens, work, l, Offset(lens, n, l))
  }

  lemma {:induction false} PlaceOne(lens: seq<nat>, work: seq<nat>, n: nat)
    requires LensOk(lens) && n < |lens| && lens[n] != 0 && Placing(lens, work, n)
    requires Below(lens, MAXBITS) <= |work|
    ensures Offset(lens, n, lens[n]) < |work| && Placing(lens, work[Offset(lens, n, lens[n]) := n], n + 1)
  {
    var m := lens[n];
    var k := Offset(lens, n, m);
    OffsetStep(lens, n, m);
    BelowMono(lens, m, MAXBITS);
    var after, n1 := work[k := n], n + 1;
    forall l | 1 <= l <= MAXBITS
      ensures Offset(lens, n1, l) <= |after| && AllPlaced(lens, after, l, Offset(lens, n1, l))
    {
      OffsetStep(lens, n, l);
      if l < m { BelowMono(lens, l, m - 1); }
      if m < l { BelowMono(lens, m, l - 1); }
      assert AllPlaced(lens, work, l, Offset(lens, n, l));
    }
  }

  lemma {:induction false} PlaceNone(lens: seq<nat>, work: seq<nat>, n: nat)
    requires n < |lens| && lens[n] == 0 && Placing(lens, work, n)
    ensures Placing(lens, work, n + 1)
  {
    var n1 := n + 1;
    forall l | 1 <= l <= MAXBITS
      ensures Offset(lens, n1, l) <= |work| && AllPlaced(lens, work, l, Offset(lens, n1, l))
    {
      OffsetStep(lens, n, l);
      assert AllPlaced(lens, work, l, Offset(lens, n, l));
    }
  }

  method Offsets(lens: seq<nat>, count: array<nat>) returns (offs: array<nat>)
    requires count[..] == Counts(lens)
    ensures fresh(offs) && offs.Length == MAXBITS + 1
    ensures forall l :: 1 <= l <= MAXBITS ==> offs[l] == Below(lens, l - 1)
  {
    offs := new nat[MAXBITS + 1](i => 0);
    for len := 1 to MAXBITS
      invariant forall l :: 1 <= l <= len ==> offs[l] == Below(lens, l - 1)
      invariant count[..] == Counts(lens)
    {
      assert count[len] == Counts(lens)[len];
      offs[len + 1] := offs[len] + count[len];
    }
  }

  method SortSymbols(lens: seq<nat>, count: array<nat>, work: array<nat>)
    requires LensOk(lens) && count[..] == Counts(lens) && work.Length >= |lens| && work != count
    modifies work
    ensures Below(lens, MAXBITS) <= |lens| && Sorted(lens, work[..Below(lens, MAXBITS)])
  {
    var offs := Offsets(lens, count);
    BelowBound(lens, MAXBITS);
    ghost var total := Below(lens, MAXBITS);
    forall l | 1 <= l <= MAXBITS ensures Below(lens, l - 1) <= Below(lens, l) <= total {
      BelowMono(lens, l, MAXBITS);
    }
    for sym := 0 to |lens|
      invariant forall l :: 1 <= l <= MAXBITS ==> offs[l] == Offset(lens, sym, l)
      invariant Placing(lens, work[..], sym)
    {
      forall l | 1 <= l <= MAXBITS
        ensures Offset(lens, sym + 1, l) == Offset(lens, sym, l) + (if lens[sym] == l then 1 else 0)
      {
        OffsetStep(lens, sym, l);
      }
      if lens[sym] != 0 {
        PlaceOne(lens, work[..], sym);
        work[offs[lens[sym]]] := sym;
        offs[lens[sym]] := offs[lens[sym]] + 1;
      } else {
        PlaceNone(lens, work[..], sym);
      }
    }
    assert lens[..|lens|] == lens;
    forall l | 1 <= l <= MAXBITS ensures AllPlaced(lens, work[..total], l, Below(lens, l)) {
      assert AllPlaced(lens, work[..], l, Offset(lens, |lens|, l));
    }
    PlacedSorted(lens, work[..total]);
  }

  // ---- filling a table ----

  /** Write here at the 2^(curr-l) indices whose l low bits are h. */
  method FillEntries(table: array<Code>, next: nat, h: nat, l: nat, curr: nat, here: Code)
    requires l <= curr && h < Pow2(l) && next + Pow2(curr) <= table.Length
    modifies table
    ensures forall i :: 0 <= i < Pow2(curr) ==>
              table[next + i] == if Low(i, l) == h then here else old(table[next + i])
    ensures forall j :: 0 <= j < table.Length && !(next <= j < next + Pow2(curr)) ==> table[j] == old(table[j])
  {
    var incr := Pow2(l);
    var fill := Pow2(curr);
    ghost var q := Pow2(curr - l);
    ShlPow2(curr - l, l);
    Shl1(l);
    forall i | 0 <= i < Pow2(curr) ensures Shr(i, l) < q {
      assert (curr - l) + l == curr;
      ShrBound(i, curr - l, l);
    }
    while fill != 0
      invariant fill == Shl(q, l) <= Pow2(curr)
      invariant forall i :: 0 <= i < Pow2(curr) ==>
                  table[next + i] == if Low(i, l) == h && Shr(i, l) >= q then here else old(table[next + i])
      invariant forall j :: 0 <= j < table.Length && !(next <= j < next + Pow2(curr)) ==> table[j] == old(table[j])
      decreases fill
    {
      if q == 0 { Shl1(l); }
      ShlAdd(q - 1, 1, l);
      Shl1(l);
      fill := fill - incr;
      q := q - 1;
      ShrLowUnique(h + fill, l, q, h);
      forall i | 0 <= i < Pow2(curr) && Low(i, l) == h && Shr(i, l) == q ensures i == h + fill {
        ShlShrLow(i, l);
      }
      table[next + (h + fill)] := here;
    }
    forall i | 0 <= i < Pow2(curr) && Low(i, l) == h ensures Shr(i, l) >= q {
      if q > 0 { ShlMono(0, q, l); Shl1(l); }
    }
  }

  /** Low bits equal to those of a bit string is the same as starting with it. */
  lemma {:induction false} LowIsPrefix(i: nat, n: nat, cb: seq<bool>)
    requires |cb| <= n
    ensures cb <= ToBits(i, n) <==> Low(i, |cb|) == FromBits(cb)
  {
    var l := |cb|;
    ToBitsSplit(i, l, n - l);
    assert l + (n - l) == n;
    assert ToBits(i, n)[..l] == ToBits(i, l);
    FromToBits(i, l);
    if Low(i, l) == FromBits(cb) {
      FromBitsInjective(ToBits(i, l), cb);
    }
    if cb <= ToBits(i, n) {
      assert ToBits(i, n)[..l] == cb;
    }
  }

  /** Step the len-bit code huff, kept bit-reversed, to the next code of that length. */
  method BackIncrement(huff: nat, len: nat, ghost b: seq<bool>) returns (r: nat)
    requires len >= 1 && |b| == len && huff == FromBits(b)
    ensures r == if Msb(b) + 1 < Pow2(len) then FromBits(MsbBits(Msb(b) + 1, len)) else 0
  {
    var i := len;
    var incr := Pow2(len - 1);
    while i > 0 && Shr(huff, i - 1) % 2 == 1
      invariant 0 <= i <= len && incr == if i == 0 then 0 else Pow2(i - 1)
      invariant forall k :: i <= k < len ==> b[k]
      decreases i
    {
      BitAt(b, i - 1);
      i := i - 1;
      incr := incr / 2;
    }
    if incr != 0 {
      BitAt(b, i - 1);
      r := Low(huff, i - 1);
      r := r + incr;
      BackIncrementValue(b, i - 1);
    } else {
      MsbAllOnes(b);
      r := 0;
    }
  }

  lemma {:induction false} BitAt(b: seq<bool>, k: nat)
    requires k < |b|
    ensures (Shr(FromBits(b), k) % 2 == 1) == b[k]
  {
    hide Shr, Low, Pow2;
    FromBitsTakeDrop(b, k);
    assert b[k..][0] == b[k];
  }

  lemma {:induction false} MsbAllOnes(b: seq<bool>)
    requires forall k :: 0 <= k < |b| ==> b[k]
    ensures Msb(b) + 1 == Pow2(|b|)
  {
    if b != [] { MsbAllOnes(b[..|b| - 1]); }
  }

  lemma {:induction false} MsbZeros(n: nat)
    ensures Msb(Zeros(n)) == 0
  {
    if n > 0 {
      MsbZeros(n - 1);
      assert Zeros(n)[..n - 1] == Zeros(n - 1);
    }
  }

  lemma {:induction false} MsbSnoc(b: seq<bool>, x: bool)
    ensures Msb(b + [x]) == 2 * Msb(b) + (if x then 1 else 0)
  {
    assert (b + [x])[..|b|] == b;
  }

  lemma {:induction false} MsbIncrement(b: seq<bool>, i: nat)
    requires i < |b| && !b[i] && forall k :: i < k < |b| ==> b[k]
    ensures Msb(b) + 1 < Pow2(|b|)
    ensures MsbBits(Msb(b) + 1, |b|) == (b[..i] + [true]) + Zeros(|b| - 1 - i)
  {
    var n := |b| - 1 - i;
    var hi, ones := b[..i], b[i + 1..];
    assert b == (hi + [false]) + ones;
    MsbAllOnes(ones);
    MsbCarry(hi, ones, n);
    MsbBitsMsb((hi + [true]) + Zeros(n));
  }

  lemma {:induction false} MsbCarry(hi: seq<bool>, ones: seq<bool>, n: nat)
    requires |ones| == n && Msb(ones) + 1 == Pow2(n)
    ensures Msb((hi + [true]) + Zeros(n)) == Msb((hi + [false]) + ones) + 1
  {
    MsbConcat(hi + [false], ones);
    MsbConcat(hi + [true], Zeros(n));
    MsbSnoc(hi, false);
    MsbSnoc(hi, true);
    MsbZeros(n);
    ShlAdd(2 * Msb(hi), 1, n);
    Shl1(n);
  }

  lemma {:induction false} BackIncrementValue(b: seq<bool>, i: nat)
    requires i < |b| && !b[i] && forall k :: i < k < |b| ==> b[k]
    ensures Msb(b) + 1 < Pow2(|b|)
    ensures Low(FromBits(b), i) + Pow2(i) == FromBits(MsbBits(Msb(b) + 1, |b|))
  {
    MsbIncrement(b, i);
    var hi := b[..i];
    FromBitsTakeDrop(b, i);
    FromBitsPad(hi + [true], |b| - 1 - i);
    FromBitsConcat(hi, [true]);
    assert FromBits([true]) == 1;
    Shl1(i);
  }

  /** Trailing zero bits do not change a value. */
  lemma {:induction false} FromBitsPad(b: seq<bool>, n: nat)
    ensures FromBits(b + Zeros(n)) == FromBits(b)
  {
    FromBitsConcat(b, Zeros(n));
    FromBitsZeros(n);
    Shl1(|b|);
  }

  // ---- order of the codes ----

  /** The next symbol starts where the present one ends. */
  lemma {:induction false} NextStart(lens: seq<nat>, work: seq<nat>, k: nat)
    requires LensOk(lens) && Sorted(lens, work) && k + 1 < |work|
    ensures Start(lens, work[k + 1]) == Start(lens, work[k]) + Size(lens, work[k])
  {
    var s, n := work[k], work[k + 1];
    var p := Start(lens, s) + Size(lens, s);
    Disjoint(lens, s, n);
    EndInRange(lens, n);
    var t := SymbolAt(lens, p);
    var i :| 0 <= i < |work| && work[i] == t;
    if i < k {
      Disjoint(lens, t, s);
    } else if i > k + 1 {
      Disjoint(lens, n, t);
    }
  }

  lemma {:induction false} FirstStart(lens: seq<nat>, work: seq<nat>)
    requires LensOk(lens) && Sorted(lens, work) && 0 < |work|
    ensures Start(lens, work[0]) == 0
  {
    var n := work[0];
    EndInRange(lens, n);
    var t := SymbolAt(lens, 0);
    var i :| 0 <= i < |work| && work[i] == t;
    if i > 0 { Disjoint(lens, n, t); }
  }

  lemma {:induction false} LastEnd(lens: seq<nat>, work: seq<nat>)
    requires LensOk(lens) && Sorted(lens, work) && 0 < |work|
    ensures Start(lens, work[|work| - 1]) + Size(lens, work[|work| - 1]) == Kraft(Counts(lens), MAXBITS)
  {
    var s := work[|work| - 1];
    EndInRange(lens, s);
    var p := Start(lens, s) + Size(lens, s);
    if p < Kraft(Counts(lens), MAXBITS) {
      var t := SymbolAt(lens, p);
      var i :| 0 <= i < |work| && work[i] == t;
      if i < |work| - 1 { Disjoint(lens, t, s); }
    }
  }

  /** The bit-reversed code of the next symbol is the incremented present one. */
  lemma {:induction false} NextCode(lens: seq<nat>, s: nat, t: nat)
    requires Used(lens, s) && Used(lens, t) && NotOver(lens) && lens[s] <= lens[t]
    requires Start(lens, t) == Start(lens, s) + Size(lens, s)
    ensures CodeVal(lens, s) + 1 < Pow2(lens[s])
    ensures FromBits(CodeBits(lens, t)) == FromBits(MsbBits(CodeVal(lens, s) + 1, lens[s]))
  {
    NextCodeVal(lens, s, t);
    CodeFits(lens, t);
    NextCodeBits(CodeVal(lens, s) + 1, CodeVal(lens, t), lens[s], lens[t]);
  }

  lemma {:induction false} NextCodeBits(c: nat, v: nat, m: nat, n: nat)
    requires m <= n && v == Shl(c, n - m) && v < Pow2(n)
    ensures c < Pow2(m) && FromBits(MsbBits(v, n)) == FromBits(MsbBits(c, m))
  {
    if c >= Pow2(m) {
      ShlMono(Pow2(m), c, n - m);
      ShlPow2(m, n - m);
    }
    MsbBitsShl(c, m, n - m);
    FromBitsPad(MsbBits(c, m), n - m);
  }

  lemma {:induction false} NextCodeVal(lens: seq<nat>, s: nat, t: nat)
    requires Used(lens, s) && Used(lens, t) && NotOver(lens) && lens[s] <= lens[t]
    requires Start(lens, t) == Start(lens, s) + Size(lens, s)
    ensures CodeVal(lens, t) == Shl(CodeVal(lens, s) + 1, lens[t] - lens[s])
  {
    hide Kraft, Counts, FirstCode, CodeVal, Shl, Start, Count, Pow2, NotOver;
    var m, n := lens[s], lens[t];
    var c := CodeVal(lens, s) + 1;
    StartIsCode(lens, s);
    StartIsCode(lens, t);
    ShlAdd(CodeVal(lens, s), 1, MAXBITS - m);
    Shl1(MAXBITS - m);
    ShlCancel(CodeVal(lens, t), c, MAXBITS - n, n - m);
  }

  lemma {:induction false} ShlCancel(v: nat, c: nat, a: nat, b: nat)
    requires Shl(v, a) == Shl(c, a + b)
    ensures v == Shl(c, b)
  {
    ShlShl(c, b, a);
    ShrShl(v, a);
    ShrShl(Shl(c, b), a);
  }

  lemma {:induction false} MsbBitsShl(c: nat, m: nat, k: nat)
    ensures MsbBits(Shl(c, k), m + k) == MsbBits(c, m) + Zeros(k)
  {
    if k == 0 {
      assert MsbBits(c, m) + Zeros(0) == MsbBits(c, m);
    } else {
      MsbBitsShl(c, m, k - 1);
      assert MsbBits(c, m) + Zeros(k) == (MsbBits(c, m) + Zeros(k - 1)) + [false];
    }
  }

  // ---- sub-tables ----

  /** The first root bits of the code of s, which select its sub-table. */
  function Prefix(lens: seq<nat>, s: nat, root: nat): (p: seq<bool>)
    requires s < |lens| && root <= lens[s] <= MAXBITS
    ensures |p| == root
  {
    CodeBits(lens, s)[..root]
  }

  lemma {:induction false} PrefixPos(lens: seq<nat>, s: nat, root: nat)
    requires Used(lens, s) && NotOver(lens) && root <= lens[s]
    ensures Shl(Msb(Prefix(lens, s, root)), MAXBITS - root) <= Start(lens, s)
    ensures Start(lens, s) + Size(lens, s) <= Shl(Msb(Prefix(lens, s, root)) + 1, MAXBITS - root)
  {
    hide Kraft, Counts, FirstCode, Shl, Shr, Low, CodeVal, Count, NotOver, Msb, MsbBits, Pow2;
    var l, c := lens[s], CodeVal(lens, s);
    CodeFits(lens, s);
    StartIsCode(lens, s);
    MsbMsbBits(c, l);
    MsbTakeDrop(CodeBits(lens, s), root);
    PrefixBounds(c, Msb(Prefix(lens, s, root)), l - root, MAXBITS - l);
  }

  lemma {:induction false} PrefixBounds(c: nat, q: nat, a: nat, b: nat)
    requires q == Shr(c, a)
    ensures Shl(q, a + b) <= Shl(c, b) && Shl(c, b) + Pow2(b) <= Shl(q + 1, a + b)
  {
    ShlShrLow(c, a);
    ShlShl(q, a, b);
    ShlMono(Shl(q, a), c, b);
    ShlAdd(q, 1, a);
    Shl1(a);
    ShlShl(q + 1, a, b);
    ShlMono(c, Shl(q + 1, a), b);
  }

  /** Codes in order have prefixes in order. */
  lemma {:induction false} PrefixOrder(lens: seq<nat>, s: nat, t: nat, root: nat)
    requires Used(lens, s) && Used(lens, t) && NotOver(lens) && root <= lens[s] && Precedes(lens, s, t)
    ensures Msb(Prefix(lens, s, root)) <= Msb(Prefix(lens, t, root))
  {
    hide Kraft, Counts, FirstCode, CodeBits, Start, Count, Msb, Prefix, Shl, Pow2, NotOver;
    var q, r := Msb(Prefix(lens, s, root)), Msb(Prefix(lens, t, root));
    PrefixPos(lens, s, root);
    PrefixPos(lens, t, root);
    Disjoint(lens, s, t);
    if r < q { ShlMono(r + 1, q, MAXBITS - root); }
  }

  /** A code that opens a new prefix starts exactly at that prefix. */
  lemma {:induction false} Aligned(lens: seq<nat>, s: nat, t: nat, root: nat)
    requires Used(lens, s) && Used(lens, t) && NotOver(lens) && Precedes(lens, s, t) && root < lens[t]
    requires Start(lens, t) == Start(lens, s) + Size(lens, s)
    requires root < lens[s] ==> Prefix(lens, s, root) != Prefix(lens, t, root)
    ensures Start(lens, t) == Shl(Msb(Prefix(lens, t, root)), MAXBITS - root)
  {
    hide Kraft, Counts, FirstCode, CodeBits, Start, Count, Msb, Prefix, Shl, NotOver, Pow2, CodeVal;
    var q := Msb(Prefix(lens, t, root));
    PrefixPos(lens, t, root);
    if lens[s] <= root {
      var c := CodeVal(lens, s) + 1;
      StartIsCode(lens, s);
      ShlAdd(CodeVal(lens, s), 1, MAXBITS - lens[s]);
      Shl1(MAXBITS - lens[s]);
      ShlShl(c, root - lens[s], MAXBITS - root);
      var x := Shl(c, root - lens[s]);
      if x < q { ShlMono(x, q, MAXBITS - root); }
      if q < x { ShlMono(q + 1, x, MAXBITS - root); }
    } else {
      var p := Msb(Prefix(lens, s, root));
      PrefixPos(lens, s, root);
      PrefixOrder(lens, s, t, root);
      if p == q { MsbInjective(Prefix(lens, s, root), Prefix(lens, t, root)); }
      ShlMono(p + 1, q, MAXBITS - root);
    }
  }

  /** Positions taken by the codes counted in cnt[a..b]. */
  function RangeSum(cnt: seq<nat>, a: nat, b: int): nat
    requires |cnt| == MAXBITS + 1 && b <= MAXBITS
    decreases b - a + 1
  {
    if b < a then 0 else RangeSum(cnt, a, b - 1) + Shl(cnt[b], MAXBITS - b)
  }

  lemma {:induction false} LookStep(left: nat, c: nat, e: nat, sum: nat)
    requires e >= 1
    ensures left <= c ==> sum + Shl(c, e) >= sum + Shl(left, e)
    ensures left > c ==> Shl(2 * (left - c), e - 1) + (sum + Shl(c, e)) == sum + Shl(left, e)
  {
    if left <= c {
      ShlMono(left, c, e);
    } else {
      ShlAdd(left - c, c, e);
      ShlDouble(left - c, e - 1);
    }
  }

  /** Bits of the sub-table that starts at a code of length len, looking ahead in the
      counts of the codes still to come. */
  method NextTableBits(count: array<nat>, len: nat, drop: nat, max: nat) returns (curr: nat)
    requires count.Length == MAXBITS + 1 && drop < len <= max <= MAXBITS
    ensures len - drop <= curr <= max - drop
    ensures curr + drop == max || RangeSum(count[..], len, curr + drop) >= Pow2(MAXBITS - drop)
    ensures curr == len - drop || RangeSum(count[..], len, curr + drop - 1) < Pow2(MAXBITS - drop)
  {
    hide Shl, Pow2;
    curr := len - drop;
    var left: int := Pow2(curr);
    ShlPow2(curr, MAXBITS - len);
    while curr + drop < max
      invariant len - drop <= curr <= max - drop && left > 0
      invariant RangeSum(count[..], len, curr + drop - 1) + Shl(left, MAXBITS - drop - curr) == Pow2(MAXBITS - drop)
      invariant curr == len - drop || RangeSum(count[..], len, curr + drop - 1) < Pow2(MAXBITS - drop)
    {
      LookStep(left, count[curr + drop], MAXBITS - drop - curr, RangeSum(count[..], len, curr + drop - 1));
      left := left - count[curr + drop];
      if left <= 0 { break; }
      curr := curr + 1;
      left := 2 * left;
      ShlMono(0, left, MAXBITS - drop - curr);
    }
  }

  /** Counts of the codes from s on. */
  ghost predicate Remaining(lens: seq<nat>, cnt: seq<nat>, s: nat)
    requires s < |lens|
  {
    && |cnt| == MAXBITS + 1 && lens[s] <= MAXBITS
    && cnt[lens[s]] + Count(lens[..s], lens[s]) == Count(lens, lens[s])
    && forall l :: lens[s] < l <= MAXBITS ==> cnt[l] == Count(lens, l)
  }

  lemma {:induction false} RangeEnd(lens: seq<nat>, cnt: seq<nat>, s: nat, e: nat)
    requires Used(lens, s) && Remaining(lens, cnt, s) && lens[s] <= e <= MAXBITS
    ensures Start(lens, s) + RangeSum(cnt, lens[s], e) == Kraft(Counts(lens), e)
  {
    var l := lens[s];
    if e == l {
      ShlAdd(Count(lens[..s], l), cnt[l], MAXBITS - l);
      assert RangeSum(cnt, l, l - 1) == 0;
    } else {
      RangeEnd(lens, cnt, s, e - 1);
    }
  }

  lemma {:induction false} StartAfter(lens: seq<nat>, t: nat)
    requires Used(lens, t)
    ensures Kraft(Counts(lens), lens[t] - 1) <= Start(lens, t)
  {
  }

  /** No code from s on with the prefix of s is longer than the sub-table can index. */
  ghost predicate Room(lens: seq<nat>, s: nat, root: nat, curr: nat)
    requires s < |lens| && root <= lens[s] <= MAXBITS
  {
    forall t: nat ::
      (Used(lens, t) && !Precedes(lens, t, s) && root <= lens[t] && Prefix(lens, t, root) == Prefix(lens, s, root))
      ==> lens[t] <= root + curr
  }

  lemma {:induction false} LookaheadGivesRoom(lens: seq<nat>, cnt: seq<nat>, s: nat, root: nat, curr: nat, max: nat)
    requires Used(lens, s) && NotOver(lens) && Remaining(lens, cnt, s)
        && root < lens[s] <= root + curr <= max <= MAXBITS
    requires forall i :: 0 <= i < |lens| ==> lens[i] <= max
    requires Start(lens, s) == Shl(Msb(Prefix(lens, s, root)), MAXBITS - root)
    requires curr + root == max || RangeSum(cnt, lens[s], curr + root) >= Pow2(MAXBITS - root)
    ensures Room(lens, s, root, curr)
  {
    hide Kraft, Counts, FirstCode, CodeBits, Start, Count, Msb, Shl, RangeSum;
    var q := Msb(Prefix(lens, s, root));
    forall t: nat | Used(lens, t) && !Precedes(lens, t, s) && root <= lens[t]
        && Prefix(lens, t, root) == Prefix(lens, s, root)
      ensures lens[t] <= root + curr
    {
      if lens[t] > root + curr {
        RangeEnd(lens, cnt, s, curr + root);
        KraftMono(Counts(lens), curr + root, lens[t] - 1);
        StartAfter(lens, t);
        PrefixPos(lens, t, root);
        ShlAdd(q, 1, MAXBITS - root);
        Shl1(MAXBITS - root);
      }
    }
  }

  // ---- the space that sub-tables take ----

  /** s is a code longer than root bits whose first root bits have the value q. */
  ghost predicate Long(lens: seq<nat>, root: nat, q: nat, s: nat) {
    Used(lens, s) && root < lens[s] && Msb(Prefix(lens, s, root)) == q
  }

  /** Index bits of the sub-table for q, among the first n symbols: 0 when there is none. */
  ghost function SubBits(lens: seq<nat>, root: nat, q: nat, n: nat): (b: nat)
    requires n <= |lens|
  {
    if n == 0 then 0
    else
      var b := SubBits(lens, root, q, n - 1);
      if Long(lens, root, q, n - 1) && lens[n - 1] - root > b then lens[n - 1] - root else b
  }

  lemma {:induction false} SubBitsIsMax(lens: seq<nat>, root: nat, q: nat, n: nat)
    requires n <= |lens|
    ensures SubBits(lens, root, q, n) > 0 ==>
              exists s: nat :: s < n && Long(lens, root, q, s) && lens[s] == root + SubBits(lens, root, q, n)
    ensures forall s: nat :: s < n && Long(lens, root, q, s) ==> lens[s] <= root + SubBits(lens, root, q, n)
    decreases n
  {
    hide Msb, Prefix;
    if n > 0 { SubBitsIsMax(lens, root, q, n - 1); }
  }

  /** Entries of the sub-tables for the prefixes below n. */
  ghost function SubEntries(lens: seq<nat>, root: nat, n: nat): nat {
    if n == 0 then 0
    else
      var b := SubBits(lens, root, n - 1, |lens|);
      SubEntries(lens, root, n - 1) + (if b == 0 then 0 else Pow2(b))
  }

  lemma {:induction false} SubEntriesMono(lens: seq<nat>, root: nat, m: nat, n: nat)
    requires m <= n
    ensures SubEntries(lens, root, m) <= SubEntries(lens, root, n)
    decreases n
  {
    hide SubBits;
    if m < n { SubEntriesMono(lens, root, m, n - 1); }
  }

  lemma {:induction false} SubEntriesFlat(lens: seq<nat>, root: nat, m: nat, n: nat)
    requires m <= n && forall q: nat, s: nat :: m <= q < n ==> !Long(lens, root, q, s)
    ensures SubEntries(lens, root, m) == SubEntries(lens, root, n)
    decreases n
  {
    hide Msb, Prefix;
    if m < n {
      SubEntriesFlat(lens, root, m, n - 1);
      SubBitsIsMax(lens, root, n - 1, |lens|);
      assert SubBits(lens, root, n - 1, |lens|) == 0;
    }
  }

  /** The sub-table of the prefix of s has exactly the bits that the lookahead found. */
  lemma {:induction false} LookaheadExact(lens: seq<nat>, cnt: seq<nat>, s: nat, root: nat, curr: nat)
    requires Used(lens, s) && Complete(lens) && Remaining(lens, cnt, s) && root < lens[s] <= root + curr <= MAXBITS
    requires Start(lens, s) == Shl(Msb(Prefix(lens, s, root)), MAXBITS - root)
    requires curr + root == lens[s] || RangeSum(cnt, lens[s], curr + root - 1) < Pow2(MAXBITS - root)
    requires forall t: nat :: Long(lens, root, Msb(Prefix(lens, s, root)), t) ==> lens[t] <= root + curr
    ensures SubBits(lens, root, Msb(Prefix(lens, s, root)), |lens|) == curr
  {
    hide Kraft, Counts, FirstCode, CodeBits, Start, Count, Msb, Shl, RangeSum, Prefix, Size;
    var q := Msb(Prefix(lens, s, root));
    var u := s;
    if curr + root > lens[s] {
      var p := Start(lens, s) + RangeSum(cnt, lens[s], curr + root - 1);
      RangeEnd(lens, cnt, s, curr + root - 1);
      PrefixPos(lens, s, root);
      ShlAdd(q, 1, MAXBITS - root);
      Shl1(MAXBITS - root);
      PrefixInRange(lens, s, root);
      u := SymbolAt(lens, p);
      EndInRange(lens, u);
      if lens[u] < curr + root { KraftMono(Counts(lens), lens[u], curr + root - 1); }
      SamePrefix(lens, u, root, q, p);
    }
    SubBitsIsMax(lens, root, q, |lens|);
    assert Long(lens, root, q, u) && lens[u] >= root + curr;
  }

  lemma {:induction false} PrefixInRange(lens: seq<nat>, s: nat, root: nat)
    requires s < |lens| && root <= lens[s] <= MAXBITS
    ensures Shl(Msb(Prefix(lens, s, root)) + 1, MAXBITS - root) <= Pow2(MAXBITS)
  {
    hide Shl, Msb, Kraft, Counts, CodeBits, Pow2;
    var q := Msb(Prefix(lens, s, root));
    assert q < Pow2(root);
    ShlMono(q + 1, Pow2(root), MAXBITS - root);
    ShlPow2(root, MAXBITS - root);
  }

  lemma {:induction false} SamePrefix(lens: seq<nat>, u: nat, root: nat, q: nat, p: nat)
    requires Used(lens, u) && NotOver(lens) && root <= lens[u]
    requires Start(lens, u) <= p < Start(lens, u) + Size(lens, u)
    requires Shl(q, MAXBITS - root) <= p < Shl(q + 1, MAXBITS - root)
    ensures Msb(Prefix(lens, u, root)) == q
  {
    hide Kraft, Counts, Start, Msb, Prefix, Shl;
    var r := Msb(Prefix(lens, u, root));
    PrefixPos(lens, u, root);
    if r < q { ShlMono(r + 1, q, MAXBITS - root); }
    if q < r { ShlMono(q + 1, r, MAXBITS - root); }
  }

  // ---- the main loop ----

  /** The table with the first n symbols of work entered, while at symbol s: the table
      being filled is at next with curr index bits, and used entries are taken so far. */
  ghost predicate Filling(T: seq<Code>, at: nat, root: nat, typ: CodeType, lens: seq<nat>, work: seq<nat>,
                          n: nat, s: nat, next: nat, curr: nat, drop: nat, used: nat)
  {
    && SymbolsFit(typ, |lens|) && NotOver(lens) && LensOk(lens) && Sorted(lens, work) && n <= |work|
    && root <= MAXBITS && at + Pow2(root) <= |T| && Used(lens, s)
    && (forall j :: 0 <= j < n ==> Filled(T, at, root, typ, lens, work[j]))
    && (forall j :: 0 <= j < n ==> !Precedes(lens, s, work[j]))
    && if lens[s] <= root then drop == 0 && next == at && curr == root && used == Pow2(root)
       else
         && drop == root && at + Pow2(root) <= next && next + Pow2(curr) == at + used <= |T|
         && used == Pow2(root) + SubEntries(lens, root, Msb(Prefix(lens, s, root)) + 1)
         && lens[s] - root <= curr && root + curr <= MAXBITS
         && T[at + FromBits(Prefix(lens, s, root))] == Code(curr, root, next - at)
         && Room(lens, s, root, curr)
         && forall j :: 0 <= j < n ==> EndsBefore(T, at, root, lens, work[j], s, next)
  }

  /** The sub-table of j, when it is not that of s, ends before next. */
  ghost predicate EndsBefore(T: seq<Code>, at: nat, root: nat, lens: seq<nat>, j: nat, s: nat, next: nat)
    requires root <= MAXBITS && at + Pow2(root) <= |T|
  {
    Used(lens, j) && Used(lens, s) && root < lens[j] && root < lens[s]
        && Prefix(lens, j, root) != Prefix(lens, s, root) ==>
      var p := T[at + FromBits(Prefix(lens, j, root))];
      at + p.val + Pow2(p.op) <= next
  }

  /** T2 is T with the entries of symbol s written in the table at next. */
  ghost predicate Wrote(T: seq<Code>, T2: seq<Code>, typ: CodeType, lens: seq<nat>, s: nat, next: nat, curr: nat,
      drop: nat)
    requires Used(lens, s) && drop < lens[s] && SymbolsFit(typ, |lens|)
  {
    && |T2| == |T| && next + Pow2(curr) <= |T|
    && (forall j :: 0 <= j < |T| && !(next <= j < next + Pow2(curr)) ==> T2[j] == T[j])
    && (forall i :: 0 <= i < Pow2(curr) ==>
          T2[next + i] == if CodeBits(lens, s)[drop..] <= ToBits(i, curr) then Entry(typ, s, lens[s] - drop)
              else T[next + i])
  }

  lemma {:induction false} IndexBound(lens: seq<nat>, s: nat, root: nat)
    requires s < |lens| && root <= lens[s] <= MAXBITS
    ensures FromBits(CodeBits(lens, s)[..root]) < Pow2(root)
  {
  }

  lemma {:induction false} KeepAway(T: seq<Code>, T2: seq<Code>, base: nat, n: nat, cb: seq<bool>, e: Code, lo: nat,
      hi: nat)
    requires |T2| == |T| && base + Pow2(n) <= |T| && FilledAt(T, base, n, cb, e)
    requires forall j :: 0 <= j < |T| && !(lo <= j < hi) ==> T2[j] == T[j]
    requires base + Pow2(n) <= lo || hi <= base
    ensures FilledAt(T2, base, n, cb, e)
  {
    hide Pow2;
  }

  ghost predicate Apart(cb: seq<bool>, sb: seq<bool>, w: seq<bool>) {
    !(cb <= w && sb <= w)
  }

  /** Writing the indices that start with sb keeps those that start with cb, when no
      index starts with both. */
  lemma {:induction false} KeepSame(T: seq<Code>, T2: seq<Code>, next: nat, curr: nat, cb: seq<bool>, e: Code,
                                    sb: seq<bool>, f: Code)
    requires |T2| == |T| && next + Pow2(curr) <= |T| && FilledAt(T, next, curr, cb, e)
    requires forall i :: 0 <= i < Pow2(curr) ==> T2[next + i] == if sb <= ToBits(i, curr) then f else T[next + i]
    requires forall w :: Apart(cb, sb, w)
    ensures FilledAt(T2, next, curr, cb, e)
  {
    hide Pow2, ToBits;
    forall i | 0 <= i < Pow2(curr) && cb <= ToBits(i, curr) ensures T2[next + i] == e {
      assert Apart(cb, sb, ToBits(i, curr));
    }
  }

  /** Entering s leaves the entries of a symbol t in the same table alone. */
  lemma {:induction false} SameTableKeeps(T: seq<Code>, T2: seq<Code>, typ: CodeType, lens: seq<nat>,
                                          s: nat, t: nat, next: nat, curr: nat, drop: nat, e: Code)
    requires Used(lens, s) && Used(lens, t) && s != t && NotOver(lens) && SymbolsFit(typ, |lens|)
    requires drop < lens[s] && drop < lens[t] && CodeBits(lens, s)[..drop] == CodeBits(lens, t)[..drop]
    requires Wrote(T, T2, typ, lens, s, next, curr, drop)
    requires FilledAt(T, next, curr, CodeBits(lens, t)[drop..], e)
    ensures FilledAt(T2, next, curr, CodeBits(lens, t)[drop..], e)
  {
    hide Pow2, CodeBits, Entry, NotOver;
    var cb, sb := CodeBits(lens, t), CodeBits(lens, s);
    forall w ensures Apart(cb[drop..], sb[drop..], w) {
      if cb[drop..] <= w && sb[drop..] <= w {
        assert sb == sb[..drop] + sb[drop..];
        assert cb == cb[..drop] + cb[drop..];
        PrefixFree(lens, s, t, sb[..drop] + w);
      }
    }
    KeepSame(T, T2, next, curr, cb[drop..], e, sb[drop..], Entry(typ, s, lens[s] - drop));
  }

  /** Entering s leaves the entries of other symbols alone. */
  lemma {:induction false} WriteKeeps(T: seq<Code>, T2: seq<Code>, at: nat, root: nat, typ: CodeType, lens: seq<nat>,
                                      work: seq<nat>, n: nat, s: nat, next: nat, curr: nat, drop: nat, used: nat,
                                          t: nat)
    requires Filling(T, at, root, typ, lens, work, n, s, next, curr, drop, used)
    requires Wrote(T, T2, typ, lens, s, next, curr, drop)
    requires Used(lens, t) && t != s && !Precedes(lens, s, t) && Filled(T, at, root, typ, lens, t)
    requires EndsBefore(T, at, root, lens, t, s, next)
    ensures Filled(T2, at, root, typ, lens, t)
    ensures root < lens[s] ==> EndsBefore(T2, at, root, lens, t, s, next)
  {
    hide Kraft, Counts, FirstCode, CodeBits, Count, CodeVal, Room, Sorted, Entry, NotOver, FilledAt, ToBits,
         FromBits, Pow2;
    var cb, sb := CodeBits(lens, t), CodeBits(lens, s);
    if lens[t] <= root {
      var e := Entry(typ, t, lens[t]);
      assert cb[0..] == cb;
      if lens[s] <= root {
        SameTableKeeps(T, T2, typ, lens, s, t, next, curr, 0, e);
      } else {
        KeepAway(T, T2, at, root, cb, e, next, next + Pow2(curr));
      }
    } else {
      IndexBound(lens, t, root);
      var e := Entry(typ, t, lens[t] - root);
      var p := T[at + FromBits(cb[..root])];
      assert T2[at + FromBits(cb[..root])] == p;
      if Prefix(lens, t, root) == Prefix(lens, s, root) {
        SameTableKeeps(T, T2, typ, lens, s, t, next, curr, root, e);
      } else {
        KeepAway(T, T2, at + p.val, p.op, cb[root..], e, next, next + Pow2(curr));
      }
    }
  }

  lemma {:induction false} WriteFills(T: seq<Code>, T2: seq<Code>, at: nat, root: nat, typ: CodeType, lens: seq<nat>,
                                      work: seq<nat>, n: nat, s: nat, next: nat, curr: nat, drop: nat, used: nat)
    requires Filling(T, at, root, typ, lens, work, n, s, next, curr, drop, used)
    requires n < |work| && work[n] == s
    requires Wrote(T, T2, typ, lens, s, next, curr, drop)
    ensures Filling(T2, at, root, typ, lens, work, n + 1, s, next, curr, drop, used)
  {
    hide Kraft, Counts, FirstCode, CodeBits, Count, CodeVal, Room, Entry, NotOver, Filled;
    forall j | 0 <= j < n
      ensures Filled(T2, at, root, typ, lens, work[j])
      ensures root < lens[s] ==> EndsBefore(T2, at, root, lens, work[j], s, next)
    {
      assert Precedes(lens, work[j], s);
      WriteKeeps(T, T2, at, root, typ, lens, work, n, s, next, curr, drop, used, work[j]);
    }
    WroteFilled(T, T2, at, root, typ, lens, work, n, s, next, curr, drop, used);
    assert !Precedes(lens, s, s);
  }

  lemma {:induction false} WroteFilled(T: seq<Code>, T2: seq<Code>, at: nat, root: nat, typ: CodeType, lens: seq<nat>,
                                       work: seq<nat>, n: nat, s: nat, next: nat, curr: nat, drop: nat, used: nat)
    requires Filling(T, at, root, typ, lens, work, n, s, next, curr, drop, used)
    requires n < |work| && work[n] == s
    requires Wrote(T, T2, typ, lens, s, next, curr, drop)
    ensures Filled(T2, at, root, typ, lens, s)
  {
    hide Kraft, Counts, FirstCode, CodeBits, Count, CodeVal, Room, Entry, NotOver;
    var cb := CodeBits(lens, s);
    assert cb[0..] == cb;
  }

  /** The next symbol goes on in the same table. */
  lemma {:induction false} SameTable(T: seq<Code>, at: nat, root: nat, typ: CodeType, lens: seq<nat>,
                                     work: seq<nat>, k: nat, next: nat, curr: nat, drop: nat, used: nat)
    requires k + 1 < |work| && Filling(T, at, root, typ, lens, work, k + 1, work[k], next, curr, drop, used)
    requires lens[work[k + 1]] <= root
        || (root < lens[work[k]] && Prefix(lens, work[k + 1], root) == Prefix(lens, work[k], root))
    ensures Filling(T, at, root, typ, lens, work, k + 1, work[k + 1], next, curr, drop, used)
  {
    hide Kraft, Counts, FirstCode, CodeBits, Count, CodeVal, Entry, NotOver, FilledAt, Filled, ToBits, FromBits,
         Pow2, Prefix;
    var s, t := work[k], work[k + 1];
    assert Precedes(lens, s, t);
    forall j | 0 <= j < k + 1 ensures !Precedes(lens, t, work[j]) {
      assert Precedes(lens, work[j], t);
    }
    if root < lens[t] {
      assert Room(lens, t, root, curr);
      forall j | 0 <= j < k + 1 ensures EndsBefore(T, at, root, lens, work[j], t, next) {
        assert EndsBefore(T, at, root, lens, work[j], s, next);
      }
    }
  }

  /** Prefixes never come back: that of t, new after s, is none of those before s. */
  lemma {:induction false} PrefixIsNew(lens: seq<nat>, u: nat, s: nat, t: nat, root: nat)
    requires Used(lens, u) && Used(lens, s) && Used(lens, t) && NotOver(lens) && root < lens[u]
    requires (u == s || Precedes(lens, u, s)) && Precedes(lens, s, t)
    requires Prefix(lens, t, root) != Prefix(lens, s, root)
    ensures Prefix(lens, u, root) != Prefix(lens, t, root)
  {
    hide Prefix, NotOver, Msb;
    PrefixOrder(lens, s, t, root);
    if u != s { PrefixOrder(lens, u, s, root); }
    if Prefix(lens, u, root) == Prefix(lens, t, root) {
      MsbInjective(Prefix(lens, s, root), Prefix(lens, t, root));
    }
  }

  /** Pointing the root entry of t at a new sub-table leaves the entries of u alone. */
  lemma {:induction false} PointerKeeps(T: seq<Code>, at: nat, root: nat, typ: CodeType, lens: seq<nat>, u: nat,
      t: nat, e: Code)
    requires SymbolsFit(typ, |lens|) && NotOver(lens) && root <= MAXBITS && at + Pow2(root) <= |T|
    requires Used(lens, u) && Used(lens, t) && u != t && root < lens[t] && Filled(T, at, root, typ, lens, u)
    requires root < lens[u] ==> Prefix(lens, u, root) != Prefix(lens, t, root)
    requires FromBits(Prefix(lens, t, root)) < Pow2(root)
    ensures Filled(T[at + FromBits(Prefix(lens, t, root)) := e], at, root, typ, lens, u)
    ensures root < lens[u] ==> T[at + FromBits(Prefix(lens, t, root)) := e][at + FromBits(Prefix(lens, u, root))]
                               == T[at + FromBits(Prefix(lens, u, root))]
  {
    hide Kraft, Counts, FirstCode, CodeBits, Count, CodeVal, Entry, NotOver, ToBits, FromBits, Pow2;
    var p := Prefix(lens, t, root);
    var T2 := T[at + FromBits(p) := e];
    var cb := CodeBits(lens, u);
    if lens[u] <= root {
      ToFromBits(p);
      if cb <= p {
        PrefixFree(lens, u, t, CodeBits(lens, t));
      }
      forall i | 0 <= i < Pow2(root) && cb <= ToBits(i, root) ensures T2[at + i] == T[at + i] {
      }
    } else {
      IndexBound(lens, u, root);
      if FromBits(cb[..root]) == FromBits(p) {
        FromBitsInjective(cb[..root], p);
      }
    }
  }

  lemma {:induction false} NewTableOne(T: seq<Code>, at: nat, root: nat, typ: CodeType, lens: seq<nat>,
      work: seq<nat>, k: nat,
                                       next: nat, curr: nat, drop: nat, used: nat, e: Code, j: nat)
    requires j <= k && k + 1 < |work| && Filling(T, at, root, typ, lens, work, k + 1, work[k], next, curr, drop, used)
    requires root < lens[work[k + 1]]
    requires root < lens[work[k]] ==> Prefix(lens, work[k + 1], root) != Prefix(lens, work[k], root)
    requires FromBits(Prefix(lens, work[k + 1], root)) < Pow2(root)
    ensures !Precedes(lens, work[k + 1], work[j])
    ensures Filled(T[at + FromBits(Prefix(lens, work[k + 1], root)) := e], at, root, typ, lens, work[j])
    ensures EndsBefore(T[at + FromBits(Prefix(lens, work[k + 1], root)) := e], at, root, lens, work[j], work[k + 1],
        at + used)
  {
    hide Kraft, Counts, FirstCode, CodeBits, Count, CodeVal, Entry, NotOver, FilledAt, ToBits, FromBits, Filled,
         Prefix, Pow2, Room;
    var s, t, u := work[k], work[k + 1], work[j];
    assert Precedes(lens, s, t);
    assert Precedes(lens, u, t);
    if j < k { assert Precedes(lens, u, s); }
    if root < lens[u] {
      PrefixIsNew(lens, u, s, t, root);
      assert EndsBefore(T, at, root, lens, u, s, next);
    }
    PointerKeeps(T, at, root, typ, lens, u, t, e);
  }

  /** The space taken once the sub-table of work[k + 1] is opened. */
  lemma {:induction false} UsedGrows(T: seq<Code>, at: nat, root: nat, typ: CodeType, lens: seq<nat>, work: seq<nat>,
      k: nat,
                                     next: nat, curr: nat, drop: nat, used: nat)
    requires k + 1 < |work| && Filling(T, at, root, typ, lens, work, k + 1, work[k], next, curr, drop, used)
    requires root < lens[work[k + 1]]
    requires root < lens[work[k]] ==> Prefix(lens, work[k + 1], root) != Prefix(lens, work[k], root)
    requires SubBits(lens, root, Msb(Prefix(lens, work[k + 1], root)), |lens|) > 0
    ensures used + Pow2(SubBits(lens, root, Msb(Prefix(lens, work[k + 1], root)), |lens|))
            == Pow2(root) + SubEntries(lens, root, Msb(Prefix(lens, work[k + 1], root)) + 1)
  {
    hide Kraft, Counts, FirstCode, CodeBits, Count, CodeVal, Entry, NotOver, Filled, Prefix, Pow2, EndsBefore, Room,
         SubBits, Msb;
    var s, t := work[k], work[k + 1];
    assert Precedes(lens, s, t);
    var q := Msb(Prefix(lens, t, root));
    var from := if root < lens[s] then Msb(Prefix(lens, s, root)) + 1 else 0;
    if root < lens[s] {
      PrefixOrder(lens, s, t, root);
      if from == q + 1 { MsbInjective(Prefix(lens, s, root), Prefix(lens, t, root)); }
    }
    forall r: nat, u: nat | from <= r < q ensures !Long(lens, root, r, u) {
      if Long(lens, root, r, u) { BetweenPrefixes(lens, work, k, root, u); }
    }
    SubEntriesFlat(lens, root, from, q);
  }

  /** A long code does not come between s and t in prefix order when they are consecutive. */
  lemma {:induction false} BetweenPrefixes(lens: seq<nat>, work: seq<nat>, k: nat, root: nat, u: nat)
    requires LensOk(lens) && NotOver(lens) && Sorted(lens, work) && k + 1 < |work| && Used(lens, u) && root < lens[u]
    requires root < lens[work[k + 1]]
    ensures (root < lens[work[k]] && Msb(Prefix(lens, u, root)) <= Msb(Prefix(lens, work[k], root)))
            || Msb(Prefix(lens, u, root)) >= Msb(Prefix(lens, work[k + 1], root))
  {
    hide Kraft, Counts, Count, NotOver, Prefix, Msb;
    var i :| 0 <= i < |work| && work[i] == u;
    if i < k {
      assert Precedes(lens, u, work[k]);
      PrefixOrder(lens, u, work[k], root);
    } else if i > k + 1 {
      assert Precedes(lens, work[k + 1], u);
      PrefixOrder(lens, work[k + 1], u, root);
    }
  }

  /** A new sub-table for symbol t = work[k + 1], pointed to from the root table. */
  lemma {:induction false} NewTable(T: seq<Code>, at: nat, root: nat, typ: CodeType, lens: seq<nat>, work: seq<nat>,
      k: nat,
                                    next: nat, curr: nat, drop: nat, used: nat, bits: nat)
    requires k + 1 < |work| && Filling(T, at, root, typ, lens, work, k + 1, work[k], next, curr, drop, used)
    requires root < lens[work[k + 1]]
    requires root < lens[work[k]] ==> Prefix(lens, work[k + 1], root) != Prefix(lens, work[k], root)
    requires at + used + Pow2(bits) <= |T| && lens[work[k + 1]] - root <= bits && root + bits <= MAXBITS
    requires Room(lens, work[k + 1], root, bits)
    requires used + Pow2(bits) == Pow2(root) + SubEntries(lens, root, Msb(Prefix(lens, work[k + 1], root)) + 1)
    ensures FromBits(Prefix(lens, work[k + 1], root)) < Pow2(root)
    ensures next + Pow2(curr) == at + used
    ensures Filling(T[at + FromBits(Prefix(lens, work[k + 1], root)) := Code(bits, root, used)],
                    at, root, typ, lens, work, k + 1, work[k + 1], at + used, bits, root, used + Pow2(bits))
  {
    hide CodeBits, Entry, NotOver, FromBits, Filled, Prefix, Pow2, EndsBefore, Room, SubEntries, Msb, Sorted,
         SymbolsFit, LensOk, Precedes;
    var t := work[k + 1];
    FillingBounds(T, at, root, typ, lens, work, k + 1, work[k], next, curr, drop, used);
    SortedAt(lens, work, k + 1);
    PrefixBound(lens, t, root);
    var e := Code(bits, root, used);
    var T2 := T[at + FromBits(Prefix(lens, t, root)) := e];
    NewTableAll(T, at, root, typ, lens, work, k, next, curr, drop, used, e, T2);
  }

  lemma {:induction false} SortedAt(lens: seq<nat>, work: seq<nat>, k: nat)
    requires Sorted(lens, work) && k < |work|
    ensures Used(lens, work[k])
  {
  }

  lemma {:induction false} NewTableAll(T: seq<Code>, at: nat, root: nat, typ: CodeType, lens: seq<nat>,
      work: seq<nat>, k: nat,
                                       next: nat, curr: nat, drop: nat, used: nat, e: Code, T2: seq<Code>)
    requires k + 1 < |work| && Filling(T, at, root, typ, lens, work, k + 1, work[k], next, curr, drop, used)
    requires Used(lens, work[k + 1]) && SymbolsFit(typ, |lens|) && root < lens[work[k + 1]]
    requires root < lens[work[k]] ==> Prefix(lens, work[k + 1], root) != Prefix(lens, work[k], root)
    requires FromBits(Prefix(lens, work[k + 1], root)) < Pow2(root) && at + Pow2(root) <= |T|
    requires T2 == T[at + FromBits(Prefix(lens, work[k + 1], root)) := e]
    ensures forall j :: 0 <= j < k + 1 ==> Used(lens, work[j]) && Filled(T2, at, root, typ, lens, work[j])
    ensures forall j :: 0 <= j < k + 1 ==> !Precedes(lens, work[k + 1], work[j])
    ensures forall j :: 0 <= j < k + 1 ==> EndsBefore(T2, at, root, lens, work[j], work[k + 1], at + used)
  {
    hide Filling, CodeBits, Entry, NotOver, FromBits, Filled, Prefix, Pow2, EndsBefore, SymbolsFit, LensOk, Precedes;
    FillingBounds(T, at, root, typ, lens, work, k + 1, work[k], next, curr, drop, used);
    forall j | 0 <= j < k + 1
      ensures Used(lens, work[j]) && !Precedes(lens, work[k + 1], work[j]) && Filled(T2, at, root, typ, lens, work[j])
      ensures EndsBefore(T2, at, root, lens, work[j], work[k + 1], at + used)
    {
      NewTableOne(T, at, root, typ, lens, work, k, next, curr, drop, used, e, j);
    }
  }

  // ---- which symbol comes next ----

  lemma {:induction false} NextCount(lens: seq<nat>, work: seq<nat>, k: nat)
    requires LensOk(lens) && Sorted(lens, work) && k + 1 < |work|
    ensures Count(lens[..work[k + 1]], lens[work[k + 1]])
            == if lens[work[k + 1]] == lens[work[k]] then Count(lens[..work[k]], lens[work[k]]) + 1 else 0
  {
    var s, t := work[k], work[k + 1];
    var l := lens[t];
    assert Precedes(lens, s, t);
    if l == lens[s] {
      CountPrefix(lens, s, l);
      CountMono(lens, s + 1, t, l);
      var c := Count(lens[..s + 1], l);
      if c < Count(lens[..t], l) {
        var u := NthSymbol(lens[..t], l, c);
        assert lens[..t][..u] == lens[..u];
        if u <= s { CountMono(lens, u, s, l); }
        Between(lens, work, k, u);
      }
    } else if Count(lens[..t], l) > 0 {
      var u := NthSymbol(lens[..t], l, 0);
      Between(lens, work, k, u);
    }
  }

  /** No symbol lies strictly between two consecutive ones. */
  lemma {:induction false} Between(lens: seq<nat>, work: seq<nat>, k: nat, u: nat)
    requires LensOk(lens) && Sorted(lens, work) && k + 1 < |work| && Used(lens, u)
    ensures !(Precedes(lens, work[k], u) && Precedes(lens, u, work[k + 1]))
  {
    var i :| 0 <= i < |work| && work[i] == u;
    if i < k { assert Precedes(lens, u, work[k]); }
    if i > k + 1 { assert Precedes(lens, work[k + 1], u); }
  }

  /** What the decremented count of the present length says about the next symbol. */
  lemma {:induction false} AfterSymbol(lens: seq<nat>, work: seq<nat>, k: nat, cnt: seq<nat>, max: nat)
    requires LensOk(lens) && Sorted(lens, work) && k < |work| && Remaining(lens, cnt, work[k])
    requires 1 <= max <= MAXBITS && Count(lens, max) != 0 && forall i :: 0 <= i < |lens| ==> lens[i] <= max
    ensures cnt[lens[work[k]]] >= 1
    ensures cnt[lens[work[k]]] > 1 || lens[work[k]] < max ==> k + 1 < |work|
    ensures cnt[lens[work[k]]] == 1 && lens[work[k]] == max ==> k + 1 == |work|
    ensures cnt[lens[work[k]]] > 1 ==> lens[work[k + 1]] == lens[work[k]]
    ensures k + 1 < |work| ==> Remaining(lens, cnt[lens[work[k]] := cnt[lens[work[k]]] - 1], work[k + 1])
  {
    var s := work[k];
    var l := lens[s];
    CountPrefix(lens, s, l);
    CountMono(lens, s + 1, s + 1, l);
    if cnt[l] > 1 {
      var u := NthSymbol(lens, l, Count(lens[..s + 1], l));
      if u <= s { CountMono(lens, u, s, l); }
      NotLast(lens, work, k, u);
    } else if l < max {
      var u := NthSymbol(lens, max, 0);
      NotLast(lens, work, k, u);
    }
    if k + 1 < |work| {
      var t := work[k + 1];
      assert Precedes(lens, s, t);
      NextCount(lens, work, k);
      CountMono(lens, t, t + 1, lens[t]);
      CountMono(lens, t + 1, t + 1, lens[t]);
    }
  }

  lemma {:induction false} NotLast(lens: seq<nat>, work: seq<nat>, k: nat, u: nat)
    requires LensOk(lens) && Sorted(lens, work) && k < |work| && Used(lens, u) && Precedes(lens, work[k], u)
    ensures k + 1 < |work| && lens[work[k + 1]] <= lens[u]
  {
    var i :| 0 <= i < |work| && work[i] == u;
    if i > k + 1 { assert Precedes(lens, work[k + 1], u); }
  }

  // ---- inflate_table ----

  function Enough(typ: CodeType, bits: nat): nat {
    match typ
    case CODES => Pow2(bits)
    case LENS => ENOUGH_LENS
    case DISTS => ENOUGH_DISTS
  }

  /** Entries of the root table and of all sub-tables. */
  ghost function TableEntries(lens: seq<nat>, root: nat): nat {
    Pow2(root) + SubEntries(lens, root, Pow2(root))
  }

  predicate TooMuch(typ: CodeType, used: nat) {
    (typ == LENS && used > ENOUGH_LENS) || (typ == DISTS && used > ENOUGH_DISTS)
  }

  /** How much of the code space is left: negative when over-subscribed. */
  method CodesLeft(lens: seq<nat>, count: array<nat>) returns (left: int)
    requires LensOk(lens) && count[..] == Counts(lens)
    ensures left < 0 <==> !NotOver(lens)
    ensures left == 0 <==> Complete(lens)
  {
    hide Kraft, Counts, Shl, Pow2;
    var cnt := Counts(lens);
    left := 1;
    LeftEnds(cnt);
    for len := 1 to MAXBITS + 1
      invariant left >= 0
      invariant Shl(left, MAXBITS + 1 - len) + Kraft(cnt, len - 1) == Pow2(MAXBITS)
    {
      LeftStep(left, cnt, len);
      assert count[len] == cnt[len];
      left := 2 * left - count[len];
      if left < 0 {
        KraftMono(cnt, len, MAXBITS);
        return;
      }
    }
    Shl0(left);
  }

  lemma {:induction false} LeftEnds(cnt: seq<nat>)
    requires |cnt| == MAXBITS + 1
    ensures Shl(1, MAXBITS) == Pow2(MAXBITS) && Kraft(cnt, 0) == 0
  {
    Shl1(MAXBITS);
  }

  lemma {:induction false} Shl0(v: nat)
    ensures Shl(v, 0) == v
  {
  }

  lemma {:induction false} KraftStep(cnt: seq<nat>, len: nat)
    requires |cnt| == MAXBITS + 1 && 1 <= len <= MAXBITS
    ensures Kraft(cnt, len) == Kraft(cnt, len - 1) + Shl(cnt[len], MAXBITS - len)
  {
    hide Shl;
  }

  lemma {:induction false} LeftStep(left: nat, cnt: seq<nat>, len: nat)
    requires |cnt| == MAXBITS + 1 && 1 <= len <= MAXBITS
    requires Shl(left, MAXBITS + 1 - len) + Kraft(cnt, len - 1) == Pow2(MAXBITS)
    ensures 2 * left < cnt[len] ==> Kraft(cnt, len) > Pow2(MAXBITS)
    ensures 2 * left >= cnt[len] ==> Shl(2 * left - cnt[len], MAXBITS - len) + Kraft(cnt, len) == Pow2(MAXBITS)
    ensures 2 * left == cnt[len] ==> Kraft(cnt, len) == Pow2(MAXBITS)
  {
    hide Kraft, Shl, Pow2;
    KraftStep(cnt, len);
    ShlDouble(left, MAXBITS - len);
    Shl1(MAXBITS - len);
    if 2 * left < cnt[len] {
      ShlMono(2 * left, cnt[len], MAXBITS - len);
    } else {
      ShlAdd(2 * left - cnt[len], cnt[len], MAXBITS - len);
    }
  }

  /** The incremented code of s: that of the next symbol, or 0 after the last code. */
  lemma {:induction false} Incremented(lens: seq<nat>, work: seq<nat>, k: nat)
    requires LensOk(lens) && NotOver(lens) && Sorted(lens, work) && k < |work|
    ensures Msb(CodeBits(lens, work[k])) == CodeVal(lens, work[k])
    ensures k + 1 < |work| ==>
              CodeVal(lens, work[k]) + 1 < Pow2(lens[work[k]]) &&
              FromBits(MsbBits(CodeVal(lens, work[k]) + 1, lens[work[k]])) == FromBits(CodeBits(lens, work[k + 1]))
    ensures k + 1 == |work| && Complete(lens) ==> CodeVal(lens, work[k]) + 1 == Pow2(lens[work[k]])
  {
    hide Kraft, Counts, CodeVal, Start, Complete;
    var s := work[k];
    CodeFits(lens, s);
    MsbMsbBits(CodeVal(lens, s), lens[s]);
    if k + 1 < |work| {
      assert Precedes(lens, s, work[k + 1]);
      NextStart(lens, work, k);
      NextCode(lens, s, work[k + 1]);
    } else if Complete(lens) {
      LastEnd(lens, work);
      LastCode(lens, s);
    }
  }

  lemma {:induction false} LastCode(lens: seq<nat>, s: nat)
    requires Used(lens, s) && Start(lens, s) + Size(lens, s) == Kraft(Counts(lens), MAXBITS) && Complete(lens)
    ensures CodeVal(lens, s) + 1 == Pow2(lens[s])
  {
    hide Kraft, Counts, CodeVal, Start, Shl, Shr, Pow2, Count;
    var l, c := lens[s], CodeVal(lens, s) + 1;
    StartIsCode(lens, s);
    ShlAdd(CodeVal(lens, s), 1, MAXBITS - l);
    Shl1(MAXBITS - l);
    ShlPow2(l, MAXBITS - l);
    ShrShl(c, MAXBITS - l);
    ShrShl(Pow2(l), MAXBITS - l);
  }

  /** What the low bits and the dropped bits of the reversed code select. */
  lemma {:induction false} CodeIndex(lens: seq<nat>, s: nat, drop: nat)
    requires s < |lens| && drop <= lens[s] <= MAXBITS
    ensures Shr(FromBits(CodeBits(lens, s)), drop) == FromBits(CodeBits(lens, s)[drop..])
    ensures Low(FromBits(CodeBits(lens, s)), drop) == FromBits(CodeBits(lens, s)[..drop])
  {
    FromBitsTakeDrop(CodeBits(lens, s), drop);
  }

  /** Enter one symbol in the table being filled. */
  method EnterSymbol(table: array<Code>, typ: CodeType, ghost lens: seq<nat>, s: nat, len: nat, huff: nat,
                     next: nat, curr: nat, drop: nat)
    requires Used(lens, s) && len == lens[s] && drop < len <= drop + curr && SymbolsFit(typ, |lens|)
    requires huff == FromBits(CodeBits(lens, s)) && next + Pow2(curr) <= table.Length
    modifies table
    ensures Wrote(old(table[..]), table[..], typ, lens, s, next, curr, drop)
    ensures forall j :: 0 <= j < table.Length && !(next <= j < next + Pow2(curr)) ==> table[j] == old(table[j])
  {
    hide CodeBits;
    var here := Entry(typ, s, len - drop);
    ghost var cb := CodeBits(lens, s)[drop..];
    CodeIndex(lens, s, drop);
    FillEntries(table, next, Shr(huff, drop), len - drop, curr, here);
    forall i | 0 <= i < Pow2(curr)
      ensures table[next + i] == if cb <= ToBits(i, curr) then here else old(table[next + i])
    {
      LowIsPrefix(i, curr, cb);
    }
  }

  lemma {:induction false} FillingBounds(T: seq<Code>, at: nat, root: nat, typ: CodeType, lens: seq<nat>,
      work: seq<nat>,
                                         n: nat, s: nat, next: nat, curr: nat, drop: nat, used: nat)
    requires Filling(T, at, root, typ, lens, work, n, s, next, curr, drop, used)
    ensures Used(lens, s) && drop < lens[s] <= drop + curr && next + Pow2(curr) == at + used <= |T|
    ensures lens[s] <= root ==> drop == 0 && next == at
    ensures lens[s] > root ==> drop == root
    ensures Pow2(root) <= used && at <= next
    ensures SymbolsFit(typ, |lens|) && NotOver(lens) && LensOk(lens) && Sorted(lens, work)
  {
  }

  lemma {:induction false} FillingStart(T: seq<Code>, at: nat, root: nat, typ: CodeType, lens: seq<nat>, work: seq<nat>)
    requires SymbolsFit(typ, |lens|) && LensOk(lens) && NotOver(lens) && Sorted(lens, work) && 0 < |work|
    requires lens[work[0]] <= root <= MAXBITS && at + Pow2(root) <= |T|
    ensures Filling(T, at, root, typ, lens, work, 0, work[0], at, root, 0, Pow2(root))
    ensures FromBits(CodeBits(lens, work[0])) == 0 && Remaining(lens, Counts(lens), work[0])
  {
    var s := work[0];
    FirstStart(lens, work);
    StartIsCode(lens, s);
    if CodeVal(lens, s) > 0 { ShlMono(0, CodeVal(lens, s), MAXBITS - lens[s]); }
    ZeroCode(lens[s]);
  }

  lemma {:induction false} ZeroCode(n: nat)
    ensures FromBits(MsbBits(0, n)) == 0
  {
    if n > 0 {
      ZeroCode(n - 1);
      FromBitsConcat(MsbBits(0, n - 1), [false]);
      Shl1(n - 1);
    }
  }

  /** After the increment the next symbol t has the code huff; its root index tells
      whether it goes on in the present table. */
  lemma {:induction false} IndexDecides(T: seq<Code>, at: nat, root: nat, typ: CodeType, lens: seq<nat>, work: seq<nat>,
                                        k: nat, next: nat, curr: nat, drop: nat, used: nat, huff: nat, low: int)
    requires k + 1 < |work| && Filling(T, at, root, typ, lens, work, k + 1, work[k], next, curr, drop, used)
    requires huff == FromBits(CodeBits(lens, work[k + 1]))
    requires low == if lens[work[k]] <= root then -1 else FromBits(Prefix(lens, work[k], root))
    ensures root < lens[work[k + 1]] ==>
              Low(huff, root) == FromBits(Prefix(lens, work[k + 1], root)) &&
              (Low(huff, root) != low <==>
               (root < lens[work[k]] ==> Prefix(lens, work[k + 1], root) != Prefix(lens, work[k], root)))
    ensures lens[work[k + 1]] <= root ==> lens[work[k]] <= root
  {
    hide Kraft, Counts, CodeVal, Filled, NotOver, FromBits;
    var s, t := work[k], work[k + 1];
    assert Precedes(lens, s, t);
    if root < lens[t] {
      CodeIndex(lens, t, root);
      if root < lens[s] && FromBits(Prefix(lens, t, root)) == FromBits(Prefix(lens, s, root)) {
        FromBitsInjective(Prefix(lens, t, root), Prefix(lens, s, root));
      }
    }
  }

  lemma {:induction false} RoomAhead(lens: seq<nat>, work: seq<nat>, k: nat, cnt: seq<nat>, root: nat, curr: nat,
      max: nat)
    requires LensOk(lens) && NotOver(lens) && Sorted(lens, work) && k + 1 < |work|
    requires Remaining(lens, cnt, work[k + 1]) && root < lens[work[k + 1]] <= root + curr <= max <= MAXBITS
    requires forall i :: 0 <= i < |lens| ==> lens[i] <= max
    requires root < lens[work[k]] ==> Prefix(lens, work[k + 1], root) != Prefix(lens, work[k], root)
    requires curr + root == max || RangeSum(cnt, lens[work[k + 1]], curr + root) >= Pow2(MAXBITS - root)
    requires curr + root == lens[work[k + 1]]
        || RangeSum(cnt, lens[work[k + 1]], curr + root - 1) < Pow2(MAXBITS - root)
    requires Complete(lens)
    ensures Room(lens, work[k + 1], root, curr)
    ensures SubBits(lens, root, Msb(Prefix(lens, work[k + 1], root)), |lens|) == curr
  {
    hide Kraft, Counts, CodeVal, NotOver, FromBits, Start, Prefix, RangeSum, SubBits, Msb, Complete, Remaining;
    var s, t := work[k], work[k + 1];
    assert Precedes(lens, s, t);
    NextStart(lens, work, k);
    Aligned(lens, s, t, root);
    LookaheadGivesRoom(lens, cnt, t, root, curr, max);
    forall u: nat | Long(lens, root, Msb(Prefix(lens, t, root)), u) ensures lens[u] <= root + curr {
      MsbInjective(Prefix(lens, u, root), Prefix(lens, t, root));
      var i :| 0 <= i < |work| && work[i] == u;
      if i < k { assert Precedes(lens, u, s); }
      if i <= k { PrefixIsNew(lens, u, s, t, root); }
      if i > k + 1 { assert Precedes(lens, t, u); }
    }
    LookaheadExact(lens, cnt, t, root, curr);
  }

  /** All symbols entered, and the gap of an incomplete code marked: the table is right. */
  lemma {:induction false} FillingDone(T: seq<Code>, at: nat, root: nat, typ: CodeType, lens: seq<nat>, work: seq<nat>,
                                       next: nat, curr: nat, drop: nat, used: nat)
    requires 0 < |work| && Filling(T, at, root, typ, lens, work, |work|, work[|work| - 1], next, curr, drop, used)
    requires 1 <= root && (typ == CODES ==> forall i :: 0 <= i < |lens| ==> lens[i] <= root)
    requires Complete(lens) || (root == 1 && Sparse(lens) && Count(lens, 1) == 1 && T[at + 1] == INVALID)
    ensures TableOk(T, at, root, typ, lens)
  {
    hide Kraft, Counts, CodeVal, Filled, Precedes, Room, EndsBefore;
  }

  /** When all symbols are entered, all the space is accounted for. */
  lemma {:induction false} UsedAll(T: seq<Code>, at: nat, root: nat, typ: CodeType, lens: seq<nat>, work: seq<nat>,
                                   next: nat, curr: nat, drop: nat, used: nat)
    requires 0 < |work| && Filling(T, at, root, typ, lens, work, |work|, work[|work| - 1], next, curr, drop, used)
    ensures used == TableEntries(lens, root)
  {
    hide Kraft, Counts, FirstCode, CodeBits, Count, CodeVal, Filled, NotOver, Prefix, EndsBefore, Room, SubBits, Msb;
    var s := work[|work| - 1];
    var from := if root < lens[s] then Msb(Prefix(lens, s, root)) + 1 else 0;
    if root < lens[s] { PrefixIndexBound(lens, s, root); }
    forall r: nat, u: nat | from <= r < Pow2(root) ensures !Long(lens, root, r, u) {
      if Long(lens, root, r, u) {
        var i :| 0 <= i < |work| && work[i] == u;
        if i < |work| - 1 {
          assert Precedes(lens, u, s);
          PrefixOrder(lens, u, s, root);
        }
      }
    }
    SubEntriesFlat(lens, root, from, Pow2(root));
  }

  /** Nothing beyond the space taken matters. */
  lemma {:induction false} FillingShrink(T: seq<Code>, at: nat, root: nat, typ: CodeType, lens: seq<nat>,
      work: seq<nat>,
                                         s: nat, next: nat, curr: nat, drop: nat, used: nat)
    requires Filling(T, at, root, typ, lens, work, |work|, s, next, curr, drop, used)
    ensures at + used <= |T| && Filling(T[..at + used], at, root, typ, lens, work, |work|, s, next, curr, drop, used)
  {
    hide Kraft, Counts, CodeBits, CodeVal, Count, NotOver, Entry, Room, SubEntries, Msb, ToBits, FromBits, Pow2;
    FillingBounds(T, at, root, typ, lens, work, |work|, s, next, curr, drop, used);
    var U := T[..at + used];
    forall j | 0 <= j < |work|
      ensures Filled(U, at, root, typ, lens, work[j])
      ensures root < lens[s] ==> EndsBefore(U, at, root, lens, work[j], s, next)
    {
      FilledShrinks(T, at, root, typ, lens, work, s, next, curr, drop, used, j);
    }
    if root < lens[s] { IndexBound(lens, s, root); }
  }

  lemma {:induction false} PrefixBound(lens: seq<nat>, s: nat, root: nat)
    requires s < |lens| && root <= lens[s] <= MAXBITS
    ensures FromBits(Prefix(lens, s, root)) < Pow2(root)
  {
    IndexBound(lens, s, root);
  }

  lemma {:induction false} FillingAt(T: seq<Code>, at: nat, root: nat, typ: CodeType, lens: seq<nat>, work: seq<nat>,
                                     n: nat, s: nat, next: nat, curr: nat, drop: nat, used: nat, j: nat)
    requires Filling(T, at, root, typ, lens, work, n, s, next, curr, drop, used) && j < n
    ensures j < |work| && Used(lens, work[j]) && SymbolsFit(typ, |lens|) && root <= MAXBITS && at + Pow2(root) <= |T|
    ensures Filled(T, at, root, typ, lens, work[j]) && !Precedes(lens, s, work[j])
    ensures s < |lens| && (root < lens[s] ==> EndsBefore(T, at, root, lens, work[j], s, next))
  {
    hide CodeBits, Filled, NotOver, EndsBefore, SubEntries, Msb, FromBits, Room, Entry, Pow2, SymbolsFit, LensOk;
  }

  /** The sub-table of a symbol entered ends within the space used. */
  lemma {:induction false} EndsWithin(T: seq<Code>, at: nat, root: nat, typ: CodeType, lens: seq<nat>, work: seq<nat>,
                                      n: nat, s: nat, next: nat, curr: nat, drop: nat, used: nat, j: nat)
    requires Filling(T, at, root, typ, lens, work, n, s, next, curr, drop, used) && j < n && j < |work|
    requires Used(lens, work[j]) && root < lens[work[j]] && FromBits(Prefix(lens, work[j], root)) < Pow2(root)
    ensures at + FromBits(Prefix(lens, work[j], root)) < |T|
    ensures var p := T[at + FromBits(Prefix(lens, work[j], root))]; at + p.val + Pow2(p.op) <= at + used
  {
    hide Filling, Prefix, CodeBits, Filled, NotOver, FromBits, Pow2, SymbolsFit, LensOk, Sorted;
    FillingAt(T, at, root, typ, lens, work, n, s, next, curr, drop, used, j);
    FillingBounds(T, at, root, typ, lens, work, n, s, next, curr, drop, used);
    if root < lens[s] { FillingLong(T, at, root, typ, lens, work, n, s, next, curr, drop, used); }
  }

  /** While a sub-table is being filled, its pointer says where it is. */
  lemma {:induction false} FillingLong(T: seq<Code>, at: nat, root: nat, typ: CodeType, lens: seq<nat>, work: seq<nat>,
                                       n: nat, s: nat, next: nat, curr: nat, drop: nat, used: nat)
    requires Filling(T, at, root, typ, lens, work, n, s, next, curr, drop, used) && Used(lens, s) && root < lens[s]
    ensures root <= MAXBITS && at <= next && at + FromBits(Prefix(lens, s, root)) < |T|
    ensures T[at + FromBits(Prefix(lens, s, root))] == Code(curr, root, next - at)
  {
    hide CodeBits, Filled, NotOver, EndsBefore, SubEntries, Msb, FromBits, Room, Entry, Pow2, SymbolsFit, LensOk,
         Sorted;
    IndexBound(lens, s, root);
  }

  lemma {:induction false} EndsBeforeShrink(T: seq<Code>, n: nat, at: nat, root: nat, lens: seq<nat>, u: nat, s: nat,
      next: nat)
    requires root <= MAXBITS && at + Pow2(root) <= n <= |T| && EndsBefore(T, at, root, lens, u, s, next)
    ensures EndsBefore(T[..n], at, root, lens, u, s, next)
  {
    hide CodeBits, FromBits, Pow2;
    if u < |lens| && root < lens[u] <= MAXBITS { IndexBound(lens, u, root); }
  }

  lemma {:induction false} FilledShrinks(T: seq<Code>, at: nat, root: nat, typ: CodeType, lens: seq<nat>,
      work: seq<nat>,
                                         s: nat, next: nat, curr: nat, drop: nat, used: nat, j: nat)
    requires Filling(T, at, root, typ, lens, work, |work|, s, next, curr, drop, used) && j < |work|
    ensures at + Pow2(root) <= at + used <= |T| && Filled(T[..at + used], at, root, typ, lens, work[j])
    ensures root < lens[s] ==> EndsBefore(T[..at + used], at, root, lens, work[j], s, next)
  {
    hide Filling, Filled, EndsBefore, CodeBits, NotOver, FromBits, Pow2, Sorted, LensOk, SymbolsFit, Precedes, Prefix;
    FillingBounds(T, at, root, typ, lens, work, |work|, s, next, curr, drop, used);
    FillingAt(T, at, root, typ, lens, work, |work|, s, next, curr, drop, used, j);
    var u := work[j];
    if root < lens[u] {
      PrefixBound(lens, u, root);
      EndsWithin(T, at, root, typ, lens, work, |work|, s, next, curr, drop, used, j);
    }
    FilledShrink(T, at, root, typ, lens, u, at + used);
    if root < lens[s] { EndsBeforeShrink(T, at + used, at, root, lens, u, s, next); }
  }

  lemma {:induction false} FilledShrink(T: seq<Code>, at: nat, root: nat, typ: CodeType, lens: seq<nat>, u: nat, n: nat)
    requires Used(lens, u) && SymbolsFit(typ, |lens|) && at + Pow2(root) <= n <= |T|
        && Filled(T, at, root, typ, lens, u)
    requires root < lens[u] ==> root <= MAXBITS && FromBits(Prefix(lens, u, root)) < Pow2(root) &&
                                var p := T[at + FromBits(Prefix(lens, u, root))]; at + p.val + Pow2(p.op) <= n
    ensures Filled(T[..n], at, root, typ, lens, u)
  {
    hide CodeBits, Entry, ToBits, FromBits, Pow2;
  }

  /** A table stays right inside a longer one. */
  lemma {:induction false} TableExtend(T: seq<Code>, U: seq<Code>, at: nat, root: nat, typ: CodeType, lens: seq<nat>)
    requires TableOk(T, at, root, typ, lens) && T <= U
    ensures TableOk(U, at, root, typ, lens)
  {
    hide Kraft, Counts, CodeBits, CodeVal, Count, NotOver, Entry, ToBits, FromBits, Pow2, Complete, Sparse;
    forall s: nat | Used(lens, s) ensures Filled(U, at, root, typ, lens, s) {
      assert Filled(T, at, root, typ, lens, s);
      if root < lens[s] { IndexBound(lens, s, root); }
    }
    TwoEntries();
  }

  /** The one code of an incomplete set takes index 0; index 1 can be marked. */
  lemma {:induction false} MarkGap(T: seq<Code>, at: nat, typ: CodeType, lens: seq<nat>, work: seq<nat>, next: nat,
      curr: nat,
                                   drop: nat, used: nat)
    requires |work| == 1 && Filling(T, at, 1, typ, lens, work, 1, work[0], next, curr, drop, used)
    requires lens[work[0]] == 1 && Start(lens, work[0]) == 0
    ensures Filling(T[at + 1 := INVALID], at, 1, typ, lens, work, 1, work[0], next, curr, drop, used)
  {
    hide Kraft, Counts, Start;
    StartIsCode(lens, work[0]);
    if CodeVal(lens, work[0]) > 0 { ShlMono(0, CodeVal(lens, work[0]), MAXBITS - 1); }
    var s, T2 := work[0], T[at + 1 := INVALID];
    assert CodeBits(lens, s) == [false] by { assert MsbBits(0, 1) == [false]; }
    assert ToBits(1, 1) == [true];
    assert Filled(T, at, 1, typ, lens, s);
    assert FilledAt(T2, at, 1, [false], Entry(typ, s, 1)) by {
      assert FilledAt(T, at, 1, [false], Entry(typ, s, 1));
      forall i | 0 <= i < Pow2(1) && [false] <= ToBits(i, 1) ensures T2[at + i] == Entry(typ, s, 1) {
        assert ToBits(i, 1)[0] == [false][0];
      }
    }
  }

  lemma {:induction false} SparseOne(lens: seq<nat>, work: seq<nat>)
    requires LensOk(lens) && Sorted(lens, work) && 0 < |work| && Sparse(lens) && Count(lens, 1) == 1
    ensures |work| == 1 && lens[work[0]] == 1 && Start(lens, work[0]) == 0
    ensures NotOver(lens) ==> CodeVal(lens, work[0]) + 1 < Pow2(1)
  {
    FirstStart(lens, work);
    forall i | 0 <= i < |work| ensures lens[work[i]] == 1 {
      var l := lens[work[i]];
      CountMono(lens, work[i], work[i] + 1, l);
      CountMono(lens, work[i] + 1, work[i] + 1, l);
    }
    if |work| > 1 {
      assert Precedes(lens, work[0], work[1]);
      CountMono(lens, work[0], work[0] + 1, 1);
      CountMono(lens, work[0] + 1, work[1], 1);
      CountMono(lens, work[1], work[1] + 1, 1);
    }
    StartIsCode(lens, work[0]);
    if CodeVal(lens, work[0]) > 0 { ShlMono(0, CodeVal(lens, work[0]), MAXBITS - 1); }
  }

  method EnterNext(table: array<Code>, typ: CodeType, ghost lens: seq<nat>, s: nat, at: nat, root: nat,
      ghost ws: seq<nat>,
                   ghost k: nat, len: nat, huff: nat, next: nat, curr: nat, drop: nat, ghost used: nat)
    requires k < |ws| && ws[k] == s && Used(lens, s) && len == lens[s] && huff == FromBits(CodeBits(lens, s))
    requires Filling(table[..], at, root, typ, lens, ws, k, s, next, curr, drop, used)
    modifies table
    ensures Filling(table[..], at, root, typ, lens, ws, k + 1, s, next, curr, drop, used)
    ensures forall j :: 0 <= j < table.Length && !(at <= j < at + used) ==> table[j] == old(table[j])
  {
    hide Filling, Wrote, CodeBits, FromBits, Pow2;
    FillingBounds(table[..], at, root, typ, lens, ws, k, s, next, curr, drop, used);
    EnterSymbol(table, typ, lens, s, len, huff, next, curr, drop);
    WriteFills(old(table[..]), table[..], at, root, typ, lens, ws, k, s, next, curr, drop, used);
  }

  method NextHuff(ghost lens: seq<nat>, ghost ws: seq<nat>, ghost k: nat, huff: nat, len: nat) returns (r: nat)
    requires LensOk(lens) && NotOver(lens) && Sorted(lens, ws) && k < |ws| && Used(lens, ws[k]) && len == lens[ws[k]]
    requires huff == FromBits(CodeBits(lens, ws[k]))
    ensures k + 1 < |ws| ==> Used(lens, ws[k + 1]) && r == FromBits(CodeBits(lens, ws[k + 1]))
    ensures r == if CodeVal(lens, ws[k]) + 1 < Pow2(len) then FromBits(MsbBits(CodeVal(lens, ws[k]) + 1, len)) else 0
  {
    hide Kraft, Counts, CodeVal, CodeBits, NotOver, FromBits, Pow2, MsbBits, Msb;
    Incremented(lens, ws, k);
    r := BackIncrement(huff, len, CodeBits(lens, ws[k]));
  }

  lemma {:induction false} PrefixIndexBound(lens: seq<nat>, s: nat, root: nat)
    requires s < |lens| && root <= lens[s] <= MAXBITS
    ensures Msb(Prefix(lens, s, root)) < Pow2(root)
  {
  }

  /** Claim a sub-table of curr bits and point the root entry low at it. */
  method OpenTable(table: array<Code>, typ: CodeType, ghost lens: seq<nat>, at: nat, root: nat, ghost ws: seq<nat>,
      ghost k: nat,
                   ghost next0: nat, ghost curr0: nat, ghost drop0: nat, used0: nat, next: nat, curr: nat, low: nat)
    returns (ret: int, used: nat)
    requires typ != CODES && at + Enough(typ, root) <= table.Length
    requires k + 1 < |ws| && Filling(table[..], at, root, typ, lens, ws, k + 1, ws[k], next0, curr0, drop0, used0)
    requires next == next0 + Pow2(curr0)
    requires Used(lens, ws[k]) && Used(lens, ws[k + 1]) && root < lens[ws[k + 1]] <= root + curr <= MAXBITS
    requires root < lens[ws[k]] ==> Prefix(lens, ws[k + 1], root) != Prefix(lens, ws[k], root)
    requires Room(lens, ws[k + 1], root, curr) && low == FromBits(Prefix(lens, ws[k + 1], root))
    requires SubBits(lens, root, Msb(Prefix(lens, ws[k + 1], root)), |lens|) == curr
    modifies table
    ensures used == used0 + Pow2(curr)
    ensures forall j :: 0 <= j < table.Length && !(at <= j < at + used) ==> table[j] == old(table[j])
    ensures ret == 0 || (ret == 1 && TooMuch(typ, TableEntries(lens, root)))
    ensures ret == 0 ==> used <= Enough(typ, root) &&
                         Filling(table[..], at, root, typ, lens, ws, k + 1, ws[k + 1], next, curr, root, used)
  {
    hide Room, Filling, Prefix, Pow2, FromBits, Msb, SubBits, SubEntries;
    UsedGrows(table[..], at, root, typ, lens, ws, k, next0, curr0, drop0, used0);
    PrefixIndexBound(lens, ws[k + 1], root);
    SubEntriesMono(lens, root, Msb(Prefix(lens, ws[k + 1], root)) + 1, Pow2(root));
    used := used0 + Pow2(curr);
    FillingBounds(table[..], at, root, typ, lens, ws, k + 1, ws[k], next0, curr0, drop0, used0);
    if TooMuch(typ, used) { return 1, used; }
    NewTable(table[..], at, root, typ, lens, ws, k, next0, curr0, drop0, used0, curr);
    table[at + low] := Code(curr, root, next - at);
    ret := 0;
  }

  /** Move on to symbol ws[k + 1], opening a sub-table when its root index is new. */
  method Advance(table: array<Code>, typ: CodeType, ghost lens: seq<nat>, at: nat, root: nat, max: nat,
      count: array<nat>,
                 ghost ws: seq<nat>, ghost k: nat, huff: nat, len: nat,
                 next0: nat, curr0: nat, drop0: nat, used0: nat, low0: int)
    returns (ret: int, next: nat, curr: nat, drop: nat, used: nat, low: int)
    requires k + 1 < |ws| && Filling(table[..], at, root, typ, lens, ws, k + 1, ws[k], next0, curr0, drop0, used0)
    requires Used(lens, ws[k]) && Used(lens, ws[k + 1]) && len == lens[ws[k + 1]]
    requires huff == FromBits(CodeBits(lens, ws[k + 1])) && 1 <= root
    requires low0 == if lens[ws[k]] <= root then -1 else FromBits(Prefix(lens, ws[k], root))
    requires Remaining(lens, count[..], ws[k + 1])
    requires root <= max <= MAXBITS && forall i :: 0 <= i < |lens| ==> lens[i] <= max
    requires typ == CODES ==> max == root
    requires Complete(lens) || max == root
    requires at + Enough(typ, root) <= table.Length && used0 <= Enough(typ, root)
    modifies table
    ensures used >= used0
    ensures forall j :: 0 <= j < table.Length && !(at <= j < at + used) ==> table[j] == old(table[j])
    ensures ret == 0 || (ret == 1 && TooMuch(typ, TableEntries(lens, root)))
    ensures ret == 0 ==> used <= Enough(typ, root) &&
                         Filling(table[..], at, root, typ, lens, ws, k + 1, ws[k + 1], next, curr, drop, used) &&
                         low == if len <= root then -1 else FromBits(Prefix(lens, ws[k + 1], root))
  {
    hide Kraft, Counts, CodeVal, CodeBits, NotOver, FromBits, Start, Prefix, Room, RangeSum, Filling,
         Sorted, Count, Pow2, Low, SymbolsFit, LensOk, SubBits, SubEntries, Msb, TableEntries, Complete;
    ret, next, curr, drop, used, low := 0, next0, curr0, drop0, used0, low0;
    FillingBounds(table[..], at, root, typ, lens, ws, k + 1, ws[k], next, curr, drop, used);
    IndexDecides(table[..], at, root, typ, lens, ws, k, next, curr, drop, used, huff, low);
    if len > root && Low(huff, root) != low {
      if drop == 0 { drop := root; }
      next := next + Pow2(curr);
      curr := NextTableBits(count, len, drop, max);
      RoomAhead(lens, ws, k, count[..], root, curr, max);
      low := Low(huff, root);
      ret, used := OpenTable(table, typ, lens, at, root, ws, k, next0, curr0, drop0, used, next, curr, low);
    } else {
      SameTable(table[..], at, root, typ, lens, ws, k, next, curr, drop, used);
    }
  }

  /** Mark the unused half of a one-symbol code, when there is one. */
  method CloseTables(table: array<Code>, typ: CodeType, lens: seq<nat>, at: nat, root: nat, ghost ws: seq<nat>,
                     huff: nat, len: nat, next: nat, curr: nat, drop: nat, used: nat)
    requires 0 < |ws| && Filling(table[..], at, root, typ, lens, ws, |ws|, ws[|ws| - 1], next, curr, drop, used)
    requires Used(lens, ws[|ws| - 1]) && len == lens[ws[|ws| - 1]] && 1 <= root
    requires Complete(lens) || (root == 1 && Sparse(lens) && Count(lens, 1) == 1)
    requires typ == CODES ==> forall i :: 0 <= i < |lens| ==> lens[i] <= root
    requires huff == if CodeVal(lens, ws[|ws| - 1]) + 1 < Pow2(len)
        then FromBits(MsbBits(CodeVal(lens, ws[|ws| - 1]) + 1, len)) else 0
    modifies table
    ensures forall j :: 0 <= j < table.Length && !(at <= j < at + used) ==> table[j] == old(table[j])
    ensures at + used <= table.Length && TableOk(table[..at + used], at, root, typ, lens)
  {
    hide Kraft, Counts, CodeBits, CodeVal, Start, Filling, TableOk, Sparse, Count, NotOver, Sorted, LensOk, Complete;
    FillingBounds(table[..], at, root, typ, lens, ws, |ws|, ws[|ws| - 1], next, curr, drop, used);
    Incremented(lens, ws, |ws| - 1);
    if !Complete(lens) {
      SparseOne(lens, ws);
      assert MsbBits(1, 1) == [true];
      MarkGap(table[..], at, typ, lens, ws, next, curr, drop, used);
    }
    if huff != 0 {
      table[next + huff] := Code(64, len - drop, 0);
    }
    FillingShrink(table[..], at, root, typ, lens, ws, ws[|ws| - 1], next, curr, drop, used);
    GapIndex(root);
    assert table[..][..at + used] == table[..at + used];
    FillingDone(table[..at + used], at, root, typ, lens, ws, next, curr, drop, used);
  }

  lemma {:induction false} GapIndex(root: nat)
    ensures root == 1 ==> Pow2(root) == 2
  {
  }

  /** The loop variables of inflate_table. */
  datatype Vars = Vars(huff: nat, len: nat, next: nat, curr: nat, drop: nat, used: nat, low: int)

  ghost predicate AtSymbol(T: seq<Code>, cnt: seq<nat>, at: nat, root: nat, typ: CodeType, lens: seq<nat>, ws: seq<nat>,
                           k: nat, v: Vars)
  {
    && k < |ws| && Used(lens, ws[k]) && v.len == lens[ws[k]] && root <= MAXBITS
    && Filling(T, at, root, typ, lens, ws, k, ws[k], v.next, v.curr, v.drop, v.used)
    && v.huff == FromBits(CodeBits(lens, ws[k]))
    && v.low == (if v.len <= root then -1 else FromBits(Prefix(lens, ws[k], root)))
    && Remaining(lens, cnt, ws[k])
    && v.used <= Enough(typ, root)
  }

  /** One turn of the loop: enter the symbol, step the code, and move to the next symbol
      and, if needed, to a new sub-table. */
  method OneSymbol(table: array<Code>, typ: CodeType, lens: seq<nat>, at: nat, root: nat, max: nat, count: array<nat>,
                   work: array<nat>, ghost ws: seq<nat>, k: nat, v: Vars)
    returns (ret: int, done: bool, w: Vars)
    requires work != count && work.Length >= |ws| && work[..|ws|] == ws
    requires AtSymbol(table[..], count[..], at, root, typ, lens, ws, k, v)
    requires LensOk(lens) && NotOver(lens) && Sorted(lens, ws)
    requires 1 <= root <= max <= MAXBITS && Count(lens, max) != 0 && forall i :: 0 <= i < |lens| ==> lens[i] <= max
    requires Complete(lens) || (root == 1 && Sparse(lens) && Count(lens, 1) == 1)
    requires typ == CODES ==> max == root
    requires Complete(lens) || max == root
    requires at + Enough(typ, root) <= table.Length
    modifies table, count
    ensures w.used >= v.used
    ensures forall j :: 0 <= j < table.Length && !(at <= j < at + w.used) ==> table[j] == old(table[j])
    ensures ret == 0 || (ret == 1 && TooMuch(typ, TableEntries(lens, root)))
    ensures ret == 0 && done ==> w.used == TableEntries(lens, root) <= Enough(typ, root) &&
                                 at + w.used <= table.Length && TableOk(table[..at + w.used], at, root, typ, lens)
    ensures ret == 0 && !done ==> AtSymbol(table[..], count[..], at, root, typ, lens, ws, k + 1, w)
  {
    hide Kraft, Counts, CodeVal, CodeBits, NotOver, FromBits, Start, Prefix, RangeSum, Filling, TableOk,
         Sorted, Complete, Count, Pow2, MsbBits, Sparse, LensOk;
    assert count.Length == MAXBITS + 1;
    hide Remaining;
    w := v;
    EnterNext(table, typ, lens, work[k], at, root, ws, k, v.len, v.huff, v.next, v.curr, v.drop, v.used);
    AfterSymbol(lens, ws, k, count[..], max);
    var len := v.len;
    var huff := NextHuff(lens, ws, k, v.huff, len);
    FillingBounds(table[..], at, root, typ, lens, ws, k + 1, ws[k], v.next, v.curr, v.drop, v.used);
    count[len] := count[len] - 1;
    if count[len] == 0 {
      if len == max {
        UsedAll(table[..], at, root, typ, lens, ws, v.next, v.curr, v.drop, v.used);
        CloseTables(table, typ, lens, at, root, ws, huff, len, v.next, v.curr, v.drop, v.used);
        return 0, true, w;
      }
      len := lens[work[k + 1]];
    }
    var next, curr, drop, used, low;
    ret, next, curr, drop, used, low :=
      Advance(table, typ, lens, at, root, max, count, ws, k, huff, len, v.next, v.curr, v.drop, v.used, v.low);
    done, w := false, Vars(huff, len, next, curr, drop, used, low);
  }

  lemma {:induction false} RootTooMuch(typ: CodeType, lens: seq<nat>, root: nat)
    requires root <= MAXBITS && TooMuch(typ, Pow2(root))
    ensures TooMuch(typ, TableEntries(lens, root))
  {
  }

  method FillTables(typ: CodeType, lens: seq<nat>, table: array<Code>, at: nat, root: nat, min: nat, max: nat,
                    count: array<nat>, work: array<nat>, ghost ws: seq<nat>)
    returns (ret: int, used: nat)
    requires SymbolsFit(typ, |lens|) && LensOk(lens) && NotOver(lens) && Sorted(lens, ws) && 0 < |ws|
    requires work != count && work.Length >= |ws| && work[..|ws|] == ws && count[..] == Counts(lens)
    requires 1 <= root <= max <= MAXBITS && Count(lens, max) != 0 && forall i :: 0 <= i < |lens| ==> lens[i] <= max
    requires min == lens[ws[0]] <= root
    requires Complete(lens) || (max == 1 && Sparse(lens) && Count(lens, 1) == 1)
    requires typ == CODES ==> max == root
    requires at + Enough(typ, root) <= table.Length
    modifies table, count
    ensures forall j :: 0 <= j < table.Length && !(at <= j < at + used) ==> table[j] == old(table[j])
    ensures ret == 0 || (ret == 1 && TooMuch(typ, TableEntries(lens, root)))
    ensures ret == 0 ==> used == TableEntries(lens, root) <= Enough(typ, root) &&
                         at + used <= table.Length && TableOk(table[..at + used], at, root, typ, lens)
  {
    hide Filling, TableOk, Remaining, Complete, Sparse, LensOk, NotOver, FromBits, CodeBits, Prefix, Kraft, Count,
         Sorted, Pow2, Counts;
    var v := Vars(0, min, at, root, 0, Pow2(root), -1);
    if TooMuch(typ, v.used) {
      RootTooMuch(typ, lens, root);
      return 1, 0;
    }
    SortedAt(lens, ws, 0);
    FillingStart(table[..], at, root, typ, lens, ws);
    var k := 0;
    while true
      invariant AtSymbol(table[..], count[..], at, root, typ, lens, ws, k, v)
      invariant work[..|ws|] == ws
      invariant forall j :: 0 <= j < table.Length && !(at <= j < at + v.used) ==> table[j] == old(table[j])
      decreases |ws| - k
    {
      var done;
      ret, done, v := OneSymbol(table, typ, lens, at, root, max, count, work, ws, k, v);
      if ret != 0 || done { return ret, v.used; }
      k := k + 1;
    }
  }

  // ---- the whole function ----

  /** The sets of lengths that are accepted. */
  ghost predicate Accepted(typ: CodeType, lens: seq<nat>) {
    NotOver(lens) && (Complete(lens) || (Sparse(lens) && (typ != CODES || Count(lens, 1) == 0)))
  }

  lemma {:induction false} NoLonger(lens: seq<nat>, max: nat)
    requires LensOk(lens) && forall l :: max < l <= MAXBITS ==> Count(lens, l) == 0
    ensures forall i :: 0 <= i < |lens| ==> lens[i] <= max
  {
    forall i | 0 <= i < |lens| ensures lens[i] <= max {
      CountMono(lens, i, i + 1, lens[i]);
      CountMono(lens, i + 1, i + 1, lens[i]);
    }
  }

  /** An incomplete set whose longest code has one bit has exactly that code. */
  lemma {:induction false} OneBitGap(lens: seq<nat>)
    requires LensOk(lens) && NotOver(lens) && !Complete(lens)
    requires (forall l :: 2 <= l <= MAXBITS ==> Count(lens, l) == 0) && Count(lens, 1) != 0
    ensures Sparse(lens) && Count(lens, 1) == 1
  {
    KraftFlat(Counts(lens), 1, MAXBITS);
    ShlMono(2, Counts(lens)[1], MAXBITS - 1);
    ShlPow2(1, MAXBITS - 1);
    assert Pow2(1) == 2;
  }

  lemma {:induction false} FirstIsShortest(lens: seq<nat>, ws: seq<nat>, min: nat, max: nat)
    requires LensOk(lens) && Sorted(lens, ws) && 1 <= min <= max <= MAXBITS
    requires Count(lens, max) != 0 && Count(lens, min) != 0 && forall l :: 1 <= l < min ==> Count(lens, l) == 0
    ensures 0 < |ws| && lens[ws[0]] == min
  {
    var u := NthSymbol(lens, min, 0);
    assert Used(lens, u);
    var i :| 0 <= i < |ws| && ws[i] == u;
    var l := lens[ws[0]];
    CountMono(lens, ws[0], ws[0] + 1, l);
    CountMono(lens, ws[0] + 1, ws[0] + 1, l);
    if i > 0 { assert Precedes(lens, ws[0], u); }
  }

  lemma {:induction false} EmptyTable(T: seq<Code>, at: nat, typ: CodeType, lens: seq<nat>)
    requires SymbolsFit(typ, |lens|) && LensOk(lens) && forall l :: 1 <= l <= MAXBITS ==> Count(lens, l) == 0
    requires at + 2 <= |T| && T[at] == INVALID && T[at + 1] == INVALID
    ensures NotOver(lens) && !Complete(lens) && Accepted(typ, lens) && TableOk(T, at, 1, typ, lens)
  {
    KraftFlat(Counts(lens), 0, MAXBITS);
    NoLonger(lens, 0);
    Shl1(MAXBITS);
  }

  lemma {:induction false} ShortEntries(lens: seq<nat>, root: nat)
    requires forall i :: 0 <= i < |lens| ==> lens[i] <= root
    ensures TableEntries(lens, root) == Pow2(root)
  {
    SubEntriesFlat(lens, root, 0, Pow2(root));
  }

  /** The longest length in use among 1..m. */
  ghost function Longest(lens: seq<nat>, m: nat): nat {
    if m == 0 || Count(lens, m) != 0 then m else Longest(lens, m - 1)
  }

  lemma {:induction false} LongestSkip(lens: seq<nat>, m: nat, n: nat)
    requires m <= n && forall l :: m < l <= n ==> Count(lens, l) == 0
    ensures Longest(lens, n) == Longest(lens, m)
  {
    if m < n { LongestSkip(lens, m, n - 1); }
  }

  /** The shortest length in use from m on, or max. */
  ghost function Shortest(lens: seq<nat>, m: nat, max: nat): nat
    decreases max - m
  {
    if m >= max || Count(lens, m) != 0 then m else Shortest(lens, m + 1, max)
  }

  lemma {:induction false} ShortestBound(lens: seq<nat>, m: nat, max: nat)
    requires m <= max
    ensures Shortest(lens, m, max) <= max
    decreases max - m
  {
    if m < max { ShortestBound(lens, m + 1, max); }
  }

  /** The root index bits for the request bits: kept within the lengths in use. */
  ghost function RootBits(lens: seq<nat>, bits: nat): nat {
    var max := Longest(lens, MAXBITS);
    var min := Shortest(lens, 1, max);
    var root := if bits > max then max else bits;
    if root < min then min else root
  }

  /** The table fits in the space set aside for it. */
  ghost predicate Fits(typ: CodeType, lens: seq<nat>, bits: nat) {
    Longest(lens, MAXBITS) == 0 || !TooMuch(typ, TableEntries(lens, RootBits(lens, bits)))
  }

  method LongestUsed(ghost lens: seq<nat>, count: array<nat>) returns (max: nat)
    requires LensOk(lens) && count[..] == Counts(lens)
    ensures max == Longest(lens, MAXBITS) <= MAXBITS && forall i :: 0 <= i < |lens| ==> lens[i] <= max
    ensures max != 0 ==> Count(lens, max) != 0
    ensures forall l :: max < l <= MAXBITS ==> Count(lens, l) == 0
  {
    hide Count;
    max := MAXBITS;
    while max >= 1 && count[max] == 0
      invariant 0 <= max <= MAXBITS && forall l :: max < l <= MAXBITS ==> Count(lens, l) == 0
      invariant Longest(lens, MAXBITS) == Longest(lens, max)
    {
      assert count[max] == Counts(lens)[max];
      max := max - 1;
    }
    assert count[max] == Counts(lens)[max];
    NoLonger(lens, max);
  }

  method ShortestUsed(ghost lens: seq<nat>, count: array<nat>, max: nat) returns (min: nat)
    requires count[..] == Counts(lens) && 1 <= max <= MAXBITS && Count(lens, max) != 0
    ensures min == Shortest(lens, 1, max) && 1 <= min <= max && Count(lens, min) != 0
    ensures forall l :: 1 <= l < min ==> Count(lens, l) == 0
  {
    hide Count;
    min := 1;
    while min < max && count[min] == 0
      invariant 1 <= min <= max && forall l :: 1 <= l < min ==> Count(lens, l) == 0
      invariant Shortest(lens, 1, max) == Shortest(lens, min, max)
    {
      hide Kraft, Counts, CodeBits, Entry, FirstCode, CodeVal, Count, Shr, Window, TableOk, Complete;
      assert count[min] == Counts(lens)[min];
      min := min + 1;
    }
    assert count[min] == Counts(lens)[min];
  }

  /** Build the decoding table of the code with lengths lens at table[at..], with about bits
      root index bits. Returns -1 for a set of lengths that is not accepted and 1 for a
      table that does not fit. */
  method InflateTable(typ: CodeType, lens: seq<nat>, table: array<Code>, at: nat, bits: nat, work: array<nat>)
    returns (ret: int, root: nat, used: nat)
    requires SymbolsFit(typ, |lens|) && LensOk(lens) && work.Length >= |lens| && bits >= 1
    requires at + Enough(typ, bits) <= table.Length
    requires typ == CODES ==> forall i :: 0 <= i < |lens| ==> lens[i] <= bits
    modifies table, work
    ensures forall j :: 0 <= j < table.Length && !(at <= j < at + used) ==> table[j] == old(table[j])
    ensures ret == 0 || ret == -1 || ret == 1
    ensures ret == -1 <==> !Accepted(typ, lens)
    ensures ret == 0 <==> Accepted(typ, lens) && Fits(typ, lens, bits)
    ensures ret == 0 ==> used <= Enough(typ, bits) && at + used <= table.Length &&
                         TableOk(table[..at + used], at, root, typ, lens)
  {
    hide Kraft, Counts, Count, NotOver, TableOk, Sorted, TableEntries, Longest, Shortest, SymbolsFit, Pow2;
    var count := CountLengths(lens);
    root, used := bits, 0;
    var max := LongestUsed(lens, count);
    if root > max { root := max; }
    if max == 0 {
      Pow2Mono(1, bits);
      TwoEntries();
      table[at] := Code(64, 1, 0);
      table[at + 1] := Code(64, 1, 0);
      EmptyTable(table[..at + 2], at, typ, lens);
      return 0, 1, 2;
    }
    var min := ShortestUsed(lens, count, max);
    if root < min { root := min; }
    var left := CodesLeft(lens, count);
    if left < 0 { return -1, root, 0; }
    if left > 0 {
      if max == 1 { OneBitGap(lens); }
      if typ == CODES || max != 1 { return -1, root, 0; }
    }
    SortSymbols(lens, count, work);
    ghost var ws := work[..Below(lens, MAXBITS)];
    FirstIsShortest(lens, ws, min, max);
    ghost var longest := NthSymbol(lens, max, 0);
    if typ == CODES { Pow2Mono(root, bits); }
    ret, used := FillTables(typ, lens, table, at, root, min, max, count, work, ws);
  }

  lemma {:induction false} TwoEntries()
    ensures Pow2(1) == 2
  {
  }

  // ---- looking a symbol up ----

  /** An entry that leads to a sub-table, by the tests that the decoder makes. */
  predicate IsLink(typ: CodeType, e: Code) {
    match typ
    case CODES => false
    case LENS => e.op != 0 && e.op < 16
    case DISTS => e.op < 16
  }

  datatype Found = Found(e: Code, n: nat) | More

  /** The one or two probes of the decoder when it holds the bits b: the entry reached and
      the bits it takes, or that more bits are needed. */
  ghost function Probe(T: seq<Code>, at: nat, root: nat, typ: CodeType, b: seq<bool>): Found
    requires at + Pow2(root) <= |T|
  {
    var hold := FromBits(b);
    ShlShrLow(hold, root);
    var e := T[at + Low(hold, root)];
    if e.bits > |b| then More
    else if IsLink(typ, e) then
      var i := at + e.val + Shr(Low(hold, e.bits + e.op), e.bits);
      if i >= |T| || e.bits + T[i].bits > |b| then More else Found(T[i], e.bits + T[i].bits)
    else Found(e, e.bits)
  }

  lemma {:induction false} EntryNoLink(typ: CodeType, s: nat, n: nat)
    requires SymbolsFit(typ, s + 1)
    ensures !IsLink(typ, Entry(typ, s, n))
  {
    hide LBase, LExt, DBase, DExt;
    if typ == LENS && s > 256 { LExtRange(s - 257); }
    if typ == DISTS { DExtRange(s); }
  }

  lemma {:induction false} LExtRange(i: nat)
    requires i < 31
    ensures LExt(i) >= 16
  {
  }

  lemma {:induction false} DExtRange(i: nat)
    requires i < 32
    ensures DExt(i) >= 16
  {
  }

  /** Bits b, padded with zeros to a full window. */
  function Window(b: seq<bool>): (w: seq<bool>)
    ensures |w| == MAXBITS
  {
    if |b| >= MAXBITS then b[..MAXBITS] else b + Zeros(MAXBITS - |b|)
  }

  lemma {:induction false} WindowLow(b: seq<bool>, n: nat)
    requires n <= MAXBITS
    ensures Low(FromBits(b), n) == FromBits(Window(b)[..n])
  {
    var w := Window(b);
    if |b| >= MAXBITS {
      FromBitsTakeDrop(b, n);
      assert w[..n] == b[..n];
    } else {
      FromBitsPad(b, MAXBITS - |b|);
      FromBitsTakeDrop(w, n);
    }
  }

  lemma {:induction false} WindowMatches(lens: seq<nat>, s: nat, t: nat, b: seq<bool>)
    requires NotOver(lens) && Used(lens, s) && CodeBits(lens, s) <= Window(b)
    ensures lens[s] <= |b| ==> DecodeSym(lens, b) == Sym(s, lens[s])
    ensures lens[s] > |b| ==> !DecodeSym(lens, b).Sym?
  {
    hide Kraft, Counts, NotOver, CodeBits;
    var w := Window(b);
    if lens[s] <= |b| {
      assert CodeBits(lens, s) == w[..lens[s]] == b[..lens[s]];
      assert Matches(lens, s, b);
    }
    var d := DecodeSym(lens, b);
    if d.Sym? {
      assert CodeBits(lens, d.s) == b[..lens[d.s]] == w[..lens[d.s]];
      PrefixFree(lens, s, d.s, w);
    }
  }

  lemma {:induction false} LinkIndex(b: seq<bool>, root: nat, op: nat)
    requires root + op <= MAXBITS
    ensures Shr(Low(FromBits(b), root + op), root) == FromBits(Window(b)[root..root + op])
  {
    var w := Window(b)[..root + op];
    WindowLow(b, root + op);
    FromBitsTakeDrop(w, root);
    assert w[root..] == Window(b)[root..root + op];
  }

  lemma {:induction false} ProbeShort(T: seq<Code>, at: nat, root: nat, b: seq<bool>, cb: seq<bool>, e: Code)
    requires at + Pow2(root) <= |T| && FilledAt(T, at, root, cb, e)
    requires |cb| <= root <= MAXBITS && cb <= Window(b)
    ensures Low(FromBits(b), root) < Pow2(root) && T[at + Low(FromBits(b), root)] == e
  {
    hide Window;
    var w := Window(b)[..root];
    WindowLow(b, root);
    ToFromBits(w);
    assert cb == w[..|cb|];
  }

  lemma {:induction false} ProbeLong(T: seq<Code>, at: nat, root: nat, op: nat, b: seq<bool>, cb: seq<bool>, e: Code)
    requires root <= |cb| <= root + op <= MAXBITS && cb <= Window(b)
    requires at + Pow2(op) <= |T| && FilledAt(T, at, op, cb[root..], e)
    ensures Shr(Low(FromBits(b), root + op), root) < Pow2(op)
    ensures T[at + Shr(Low(FromBits(b), root + op), root)] == e
  {
    hide Window;
    var v := Window(b)[root..root + op];
    LinkIndex(b, root, op);
    ToFromBits(v);
    assert cb == Window(b)[..|cb|];
    assert cb[root..] == v[..|cb| - root];
  }

  /** The probes on a window that starts with the code of s reach s. */
  lemma {:induction false} ProbeSymbol(T: seq<Code>, at: nat, root: nat, typ: CodeType, lens: seq<nat>, b: seq<bool>,
      s: nat)
    requires TableOk(T, at, root, typ, lens) && Used(lens, s) && CodeBits(lens, s) <= Window(b)
    ensures lens[s] > |b| ==> Probe(T, at, root, typ, b) == More
    ensures lens[s] <= |b| ==>
              Probe(T, at, root, typ, b) == Found(Entry(typ, s, if lens[s] <= root then lens[s] else lens[s] - root),
                  lens[s])
  {
    assert Filled(T, at, root, typ, lens, s);
    assert typ == CODES ==> lens[s] <= root;
    assert SymbolsFit(typ, s + 1) && root <= MAXBITS && at + Pow2(root) <= |T|;
    hide Kraft, Counts, CodeBits, Entry, FirstCode, CodeVal, Count, Low, Shr, FromBits, Window, Pow2, FilledAt, TableOk;
    var cb := CodeBits(lens, s);
    ShlShrLow(FromBits(b), root);
    if lens[s] <= root {
      ProbeShort(T, at, root, b, cb, Entry(typ, s, lens[s]));
      EntryNoLink(typ, s, lens[s]);
    } else {
      ProbeLongSymbol(T, at, root, typ, lens, b, s);
    }
  }

  lemma {:induction false} ProbeLongSymbol(T: seq<Code>, at: nat, root: nat, typ: CodeType, lens: seq<nat>,
      b: seq<bool>, s: nat)
    requires SymbolsFit(typ, |lens|) && at + Pow2(root) <= |T| && typ != CODES && root <= MAXBITS
    requires Used(lens, s) && root < lens[s] && CodeBits(lens, s) <= Window(b) && Filled(T, at, root, typ, lens, s)
    ensures lens[s] > |b| ==> Probe(T, at, root, typ, b) == More
    ensures lens[s] <= |b| ==> Probe(T, at, root, typ, b) == Found(Entry(typ, s, lens[s] - root), lens[s])
  {
    hide Kraft, Counts, CodeBits, Entry, FirstCode, CodeVal, Count, Low, Shr, FromBits, Window, Pow2, FilledAt;
    var cb := CodeBits(lens, s);
    WindowLow(b, root);
    ShlShrLow(FromBits(b), root);
    assert cb[..root] == Window(b)[..root];
    var p := T[at + Low(FromBits(b), root)];
    ProbeLong(T, at + p.val, root, p.op, b, cb, Entry(typ, s, lens[s] - root));
    assert IsLink(typ, p);
  }

  /** The decoder's probes agree with the code: a symbol is found exactly when its code is
      at hand, more bits are asked for exactly when they are needed, and only bits that no
      code word starts with reach the invalid marker. */
  lemma {:induction false} ProbeDecodes(T: seq<Code>, at: nat, root: nat, typ: CodeType, lens: seq<nat>, b: seq<bool>)
    requires TableOk(T, at, root, typ, lens)
    ensures match DecodeSym(lens, b)
            case Sym(s, n) => Probe(T, at, root, typ, b) == Found(Entry(typ, s, if n <= root then n else n - root), n)
            case NeedMore => Probe(T, at, root, typ, b) == More
            case NoCode => Probe(T, at, root, typ, b) == Found(INVALID, 1) && |b| >= 1
  {
    hide Kraft, Counts, NotOver, CodeBits, Entry, FirstCode, CodeVal, Window, Probe, Filled;
    if Complete(lens) {
      var s := CompleteMatches(lens, Window(b));
      ProbeSymbol(T, at, root, typ, lens, b, s);
      WindowMatches(lens, s, s, b);
    } else {
      SparseProbe(T, at, root, typ, lens, b);
    }
  }

  /** What an incomplete code says: after a zero, its only symbol, if it has one. */
  lemma {:induction false} SparseDecode(lens: seq<nat>, b: seq<bool>)
    requires NotOver(lens) && !Complete(lens) && Sparse(lens)
    ensures b == [] ==> DecodeSym(lens, b) == NeedMore
    ensures b != [] && (b[0] || Count(lens, 1) == 0) ==> DecodeSym(lens, b) == NoCode
    ensures b != [] && !b[0] && Count(lens, 1) == 1 ==>
              DecodeSym(lens, b).Sym? && Used(lens, DecodeSym(lens, b).s)
                  && DecodeSym(lens, b).n == 1 == lens[DecodeSym(lens, b).s]
  {
    hide Kraft, Counts, CodeBits, Complete, NotOver, Count, Sparse;
    forall s: nat | Used(lens, s) ensures lens[s] == 1 && Count(lens, 1) == 1 && CodeBits(lens, s) == [false] {
      SparseCode(lens, s);
    }
    if Count(lens, 1) == 1 && b != [] && !b[0] {
      var s := NthSymbol(lens, 1, 0);
      assert Used(lens, s) && [false] <= b;
      assert Matches(lens, s, b);
    }
  }

  lemma {:induction false} SparseIndex(b: seq<bool>)
    ensures Low(FromBits(b), 1) == if b != [] && b[0] then 1 else 0
  {
    WindowLow(b, 1);
    var w := Window(b);
    assert w[..1] == [w[0]];
    assert FromBits([true]) == 1 && FromBits([false]) == 0;
  }

  /** The two entries of the table of an incomplete code. */
  lemma {:induction false} SparseTable(T: seq<Code>, at: nat, root: nat, typ: CodeType, lens: seq<nat>, s: nat)
    requires TableOk(T, at, root, typ, lens) && !Complete(lens)
    ensures Sparse(lens) && NotOver(lens) && SymbolsFit(typ, |lens|) && root == 1 && Pow2(1) == 2 && at + 2 <= |T|
        && T[at + 1] == INVALID
    ensures Count(lens, 1) == 0 ==> T[at] == INVALID
    ensures Used(lens, s) && lens[s] == 1 ==> T[at] == Entry(typ, s, 1)
  {
    hide Kraft, Counts, Entry, FirstCode, CodeVal, Complete, NotOver;
    TwoEntries();
    if Used(lens, s) && lens[s] == 1 {
      SparseCode(lens, s);
      assert Filled(T, at, root, typ, lens, s);
      assert ToBits(0, 1) == [false];
      assert T[at] == T[at + 0] == Entry(typ, s, 1);
    }
  }

  lemma {:induction false} SparseProbe(T: seq<Code>, at: nat, root: nat, typ: CodeType, lens: seq<nat>, b: seq<bool>)
    requires TableOk(T, at, root, typ, lens) && !Complete(lens)
    ensures match DecodeSym(lens, b)
            case Sym(s, n) => Probe(T, at, root, typ, b) == Found(Entry(typ, s, if n <= root then n else n - root), n)
            case NeedMore => Probe(T, at, root, typ, b) == More
            case NoCode => Probe(T, at, root, typ, b) == Found(INVALID, 1) && |b| >= 1
  {
    var d := DecodeSym(lens, b);
    SparseTable(T, at, root, typ, lens, if d.Sym? then d.s else 0);
    hide DecodeSym, TableOk, Entry, Complete, NotOver, Sparse, SymbolsFit, CodeBits, FromBits;
    SparseDecode(lens, b);
    SparseIndex(b);
    assert !IsLink(typ, INVALID);
    if d.Sym? { EntryNoLink(typ, d.s, 1); }
    if b == [] && Count(lens, 1) != 0 {
      var s := NthSymbol(lens, 1, 0);
      SparseEntry(T, at, root, typ, lens, s);
    }
  }

  lemma {:induction false} SparseEntry(T: seq<Code>, at: nat, root: nat, typ: CodeType, lens: seq<nat>, s: nat)
    requires TableOk(T, at, root, typ, lens) && !Complete(lens) && s < |lens| && lens[s] == 1
    ensures at + 2 <= |T| && T[at].bits == 1
  {
    SparseTable(T, at, root, typ, lens, s);
  }

  /** A link has used up the root bits, and its sub-table lies within the table. */
  lemma {:induction false} LinkShape(T: seq<Code>, at: nat, root: nat, typ: CodeType, lens: seq<nat>, b: seq<bool>)
    requires TableOk(T, at, root, typ, lens)
    ensures Low(FromBits(b), root) < Pow2(root)
    ensures IsLink(typ, T[at + Low(FromBits(b), root)]) ==>
              var e := T[at + Low(FromBits(b), root)];
              e.bits == root && root + e.op <= MAXBITS && at + e.val + Pow2(e.op) <= |T|
  {
    hide Kraft, Counts, Count, Complete, Entry, CodeBits, CodeVal, FilledAt, NotOver, Sparse, Shr, Shl, FromBits,
         Pow2, Window;
    ShlShrLow(FromBits(b), root);
    if Complete(lens) {
      var s := CompleteMatches(lens, Window(b));
      assert Filled(T, at, root, typ, lens, s);
      var cb := CodeBits(lens, s);
      if lens[s] <= root {
        ProbeShort(T, at, root, b, cb, Entry(typ, s, lens[s]));
        EntryNoLink(typ, s, lens[s]);
      } else {
        WindowLow(b, root);
        assert cb[..root] == Window(b)[..root];
      }
    } else {
      SparseNoLink(T, at, root, typ, lens);
    }
  }

  lemma {:induction false} SparseNoLink(T: seq<Code>, at: nat, root: nat, typ: CodeType, lens: seq<nat>)
    requires TableOk(T, at, root, typ, lens) && !Complete(lens)
    ensures root == 1 && !IsLink(typ, T[at]) && !IsLink(typ, T[at + 1])
  {
    hide Kraft, Counts, Entry, FirstCode, CodeVal, Complete, NotOver;
    TwoEntries();
    assert !IsLink(typ, INVALID);
    if Count(lens, 1) == 1 {
      var s := NthSymbol(lens, 1, 0);
      SparseCode(lens, s);
      assert Filled(T, at, root, typ, lens, s);
      assert ToBits(0, 1) == [false];
      assert T[at] == T[at + 0] == Entry(typ, s, 1);
      EntryNoLink(typ, s, 1);
    }
  }
}
