/** The tables that give length and distance codes (tr_static_init of trees.c, d_code of
    deflate.h): a look-up agrees with the search for the code whose range holds the value. */
module CodeTables {
  import opened Bits
  import opened Blocks
  import R = Rfc1951

  /** Ranges follow each other, so only one holds a given length ... */
  lemma {:induction false} LengthOrder(a: nat, b: nat)
    requires a < b < 28
    ensures R.LengthBase(a) + Pow2(R.LengthExtra(a)) <= R.LengthBase(b)
    decreases b
  {
    hide R.LengthBase, R.LengthExtra, Pow2;
    LengthNext(b - 1);
    if a < b - 1 { LengthOrder(a, b - 1); }
  }

  lemma {:induction false} LenCodeIs(lc: nat, c: nat)
    requires c < 28 && lc < 255 && R.LengthBase(c) <= lc + 3 < R.LengthBase(c) + Pow2(R.LengthExtra(c))
    ensures LenCode(lc) == c
  {
    hide R.LengthBase, R.LengthExtra, Pow2;
    LenCodeHolds(lc);
    var r := LenCode(lc);
    if r < c { LengthOrder(r, c); }
    if c < r { LengthOrder(c, r); }
  }

  /** ... or distance. */
  lemma {:induction false} DistOrder(a: nat, b: nat)
    requires a < b < 30
    ensures R.DistBase(a) + Pow2(R.DistExtra(a)) <= R.DistBase(b)
    decreases b
  {
    hide R.DistBase, R.DistExtra, Pow2;
    DistNext(b - 1);
    if a < b - 1 { DistOrder(a, b - 1); }
  }

  lemma {:induction false} DistCodeIs(d: nat, c: nat)
    requires c < 30 && d < 32768 && R.DistBase(c) <= d + 1 < R.DistBase(c) + Pow2(R.DistExtra(c))
    ensures DistCode(d) == c
  {
    hide R.DistBase, R.DistExtra, Pow2;
    DistCodeHolds(d);
    var r := DistCode(d);
    if r < c { DistOrder(r, c); }
    if c < r { DistOrder(c, r); }
  }

  lemma {:induction false} LengthTotals()
    ensures R.LengthBase(0) == 3 && R.LengthBase(27) + Pow2(R.LengthExtra(27)) == 259
  {
    LastLength();
  }

  /** Enter code n times. */
  method Enter(table: array<nat>, at: nat, n: nat, code: nat) returns (next: nat)
    requires at + n <= table.Length
    modifies table
    ensures next == at + n
    ensures forall k :: 0 <= k < table.Length ==> table[k] == if at <= k < at + n then code else old(table[k])
  {
    next := at;
    for i := 0 to n
      invariant next == at + i
      invariant forall k :: 0 <= k < table.Length ==> table[k] == if at <= k < next then code else old(table[k])
    {
      table[next] := code;
      next := next + 1;
    }
  }

  /** _length_code */
  method LengthTable() returns (table: array<nat>)
    ensures fresh(table) && table.Length == 256 && forall lc: nat :: lc < 256 ==> table[lc] == LenCode(lc)
  {
    hide R.LengthBase, R.LengthExtra, Pow2, LenCode;
    table := new nat[256](i => 0);
    var length, code := 0, 0;
    LengthTotals();
    while code < 28
      invariant code <= 28 && length == (if code < 28 then R.LengthBase(code) - 3 else 256)
      invariant forall lc: nat :: lc < length && lc < 255 ==> table[lc] == LenCode(lc)
    {
      LengthEnd(code);
      LengthRange(code);
      length := Enter(table, length, Pow2(R.LengthExtra(code)), code);
      if code < 27 { LengthNext(code); }
      code := code + 1;
    }
    table[length - 1] := code;
    LongestCode();
  }

  lemma {:induction false} LengthRange(c: nat)
    requires c < 28 && R.LengthBase(c) >= 3
    ensures forall lc: nat ::
      (R.LengthBase(c) - 3 <= lc < R.LengthBase(c) - 3 + Pow2(R.LengthExtra(c)) && lc < 255) ==> LenCode(lc) == c
  {
    hide R.LengthBase, R.LengthExtra, Pow2, LenCode;
    forall lc: nat | R.LengthBase(c) - 3 <= lc < R.LengthBase(c) - 3 + Pow2(R.LengthExtra(c)) && lc < 255
        ensures LenCode(lc) == c {
      LenCodeIs(lc, c);
    }
  }

  lemma {:induction false} DistRange(c: nat)
    requires c < 30 && R.DistBase(c) >= 1
    ensures forall d: nat :: R.DistBase(c) - 1 <= d < R.DistBase(c) - 1 + Pow2(R.DistExtra(c)) && d < 32768 ==>
        DistCode(d) == c
  {
    hide R.DistBase, R.DistExtra, Pow2, DistCode;
    forall d: nat | R.DistBase(c) - 1 <= d < R.DistBase(c) - 1 + Pow2(R.DistExtra(c)) && d < 32768
        ensures DistCode(d) == c {
      DistCodeIs(d, c);
    }
  }

  lemma {:induction false} LongestCode()
    ensures LenCode(255) == 28
  {
  }

  /** No range goes past the end of the table. */
  lemma {:induction false} LengthEnd(c: nat)
    requires c < 28
    ensures 3 <= R.LengthBase(c) && R.LengthBase(c) + Pow2(R.LengthExtra(c)) <= 259
        && (c == 27 ==> R.LengthBase(c) + Pow2(R.LengthExtra(c)) == 259)
  {
    hide R.LengthBase, R.LengthExtra, Pow2;
    LengthTotals();
    if c < 27 {
      LengthOrder(c, 27);
      PowPos(R.LengthExtra(27));
    }
    if c > 0 { LengthOrder(0, c); PowPos(R.LengthExtra(0)); }
  }

  lemma {:induction false} PowPos(n: nat)
    ensures Pow2(n) >= 1
  {
  }

  /** d_code: distances from 256 on are looked up by their upper bits. */
  function DCode(table: seq<nat>, d: nat): nat
    requires |table| == 512 && d < 32768
  {
    if d < 256 then table[d] else table[256 + d / 128]
  }

  lemma {:induction false} DistTotals()
    ensures R.DistBase(0) == 1 && R.DistBase(16) == 257 && R.DistBase(15) + Pow2(R.DistExtra(15)) == 257
    ensures R.DistBase(29) + Pow2(R.DistExtra(29)) == 32769
  {
    hide Pow2;
    R.SmallPow2();
  }

  /** From code 16 on, ranges are whole multiples of 128. */
  lemma {:induction false} WideRange(c: nat)
    requires 16 <= c < 30
    ensures R.DistExtra(c) >= 7 && (R.DistBase(c) - 1) % 128 == 0
        && Pow2(R.DistExtra(c)) == 128 * Pow2(R.DistExtra(c) - 7)
  {
    hide Pow2;
    R.SmallPow2();
  }

  /** _dist_code */
  method DistTable() returns (table: array<nat>)
    ensures fresh(table) && table.Length == 512 && forall d: nat :: d < 32768 ==> DCode(table[..], d) == DistCode(d)
  {
    hide R.DistBase, R.DistExtra, Pow2, DistCode, Upper;
    table := new nat[512](i => 0);
    DistTotals();
    var dist, code := 0, 0;
    while code < 16
      invariant code <= 16 && dist == R.DistBase(code) - 1 && dist <= 256
      invariant forall d: nat :: d < dist ==> table[d] == DistCode(d)
    {
      DistNext(code);
      NarrowEnd(code);
      DistRange(code);
      dist := Enter(table, dist, Pow2(R.DistExtra(code)), code);
      code := code + 1;
    }
    dist := dist / 128;
    while code < 30
      invariant 16 <= code <= 30 && 2 <= dist <= 256
          && 128 * dist == (if code < 30 then R.DistBase(code) - 1 else 32768)
      invariant forall d: nat :: d < 256 ==> table[d] == DistCode(d)
      invariant forall i: nat :: 258 <= i < 256 + dist ==> Upper(table[i], i - 256)
    {
      WideRange(code);
      WideEnd(code);
      UpperRange(code, dist, Pow2(R.DistExtra(code) - 7));
      var next := Enter(table, 256 + dist, Pow2(R.DistExtra(code) - 7), code);
      dist := next - 256;
      if code < 29 { DistNext(code); }
      code := code + 1;
    }
    Looked(table[..]);
  }

  lemma {:induction false} Looked(table: seq<nat>)
    requires |table| == 512 && (forall d: nat :: d < 256 ==> table[d] == DistCode(d)) && forall i: nat ::
        258 <= i < 512 ==> Upper(table[i], i - 256)
    ensures forall d: nat :: d < 32768 ==> DCode(table, d) == DistCode(d)
  {
    hide DistCode;
    forall d: nat | d < 32768 ensures DCode(table, d) == DistCode(d) {
      if d >= 256 {
        var i := 256 + d / 128;
        assert Upper(table[i], i - 256);
      }
    }
  }

  lemma {:induction false} UpperRange(c: nat, q0: nat, n: nat)
    requires 16 <= c < 30 && R.DistBase(c) - 1 == 128 * q0 && Pow2(R.DistExtra(c)) == 128 * n && q0 + n <= 256
    ensures forall q: nat :: q0 <= q < q0 + n ==> Upper(c, q)
  {
    hide R.DistBase, R.DistExtra, Pow2, DistCode, Upper;
    forall q: nat | q0 <= q < q0 + n ensures Upper(c, q) {
      UpperIs(c, q);
    }
  }

  /** Entry c is the code of all distances with the upper bits q. */
  ghost predicate Upper(c: nat, q: nat) {
    forall d: nat :: 128 * q <= d < 128 * q + 128 ==> DistCode(d) == c
  }

  lemma {:induction false} UpperIs(c: nat, q: nat)
    requires 16 <= c < 30 && q < 256 && R.DistBase(c) - 1 <= 128 * q
        && 128 * q + 128 < R.DistBase(c) + Pow2(R.DistExtra(c))
    ensures Upper(c, q)
  {
    hide R.DistBase, R.DistExtra, Pow2, DistCode;
    forall d: nat | 128 * q <= d < 128 * q + 128 ensures DistCode(d) == c {
      DistCodeIs(d, c);
    }
  }

  lemma {:induction false} NarrowEnd(c: nat)
    requires c < 16
    ensures R.DistBase(c) + Pow2(R.DistExtra(c)) <= 257 && R.DistBase(c) >= 1
  {
    hide R.DistBase, R.DistExtra, Pow2;
    DistTotals();
    if c < 15 { DistOrder(c, 15); PowPos(R.DistExtra(15)); }
    if c > 0 { DistOrder(0, c); }
  }

  lemma {:induction false} WideEnd(c: nat)
    requires 16 <= c < 30
    ensures R.DistBase(c) + Pow2(R.DistExtra(c)) <= 32769 && (c == 29 ==> R.DistBase(c) + Pow2(R.DistExtra(c)) == 32769)
  {
    hide R.DistBase, R.DistExtra, Pow2;
    DistTotals();
    if c < 29 { DistOrder(c, 29); PowPos(R.DistExtra(29)); }
  }
}
