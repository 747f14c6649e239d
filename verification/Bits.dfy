/** Bit strings and their value, least significant bit first as DEFLATE packs them
    (RFC 1951 section 3.1.1), the most-significant-first reading used for Huffman
    codes, and the shifts and masks of C written as recursions over the bits. */
module Bits {
  type byte = b: int | 0 <= b < 256

  /** v << n */
  function Shl(v: nat, n: nat): (r: nat)
  {
    if n == 0 then v else 2 * Shl(v, n - 1)
  }

  /** v >> n */
  function Shr(v: nat, n: nat): (r: nat)
  {
    if n == 0 then v else Shr(v / 2, n - 1)
  }

  /** v & ((1 << n) - 1) */
  function Low(v: nat, n: nat): (r: nat)
  {
    if n == 0 then 0 else v % 2 + 2 * Low(v / 2, n - 1)
  }

  /** 1 << n */
  function Pow2(n: nat): (r: nat)
    ensures r >= 1
  {
    if n == 0 then 1 else 2 * Pow2(n - 1)
  }

  /** The n low bits of v, least significant first. */
  function ToBits(v: nat, n: nat): (b: seq<bool>)
    ensures |b| == n
  {
    if n == 0 then [] else [v % 2 == 1] + ToBits(v / 2, n - 1)
  }

  /** The value of a bit string whose first bit is the least significant. */
  function FromBits(b: seq<bool>): (v: nat)
    ensures v < Pow2(|b|)
  {
    if b == [] then 0 else (if b[0] then 1 else 0) + 2 * FromBits(b[1..])
  }

  /** The value of a bit string whose first bit is the most significant. */
  function Msb(b: seq<bool>): (v: nat)
    ensures v < Pow2(|b|)
  {
    if b == [] then 0 else 2 * Msb(b[..|b| - 1]) + (if b[|b| - 1] then 1 else 0)
  }

  /** The n low bits of v, most significant first. */
  function MsbBits(v: nat, n: nat): (b: seq<bool>)
    ensures |b| == n
  {
    if n == 0 then [] else MsbBits(v / 2, n - 1) + [v % 2 == 1]
  }

  function Zeros(n: nat): (b: seq<bool>)
    ensures |b| == n && forall i :: 0 <= i < n ==> !b[i]
  {
    seq(n, i => false)
  }

  /** The bits of a byte sequence in stream order. */
  function BytesBits(s: seq<byte>): (b: seq<bool>)
    ensures |b| == 8 * |s|
  {
    if s == [] then [] else ToBits(s[0], 8) + BytesBits(s[1..])
  }

  // ---- shifts ----

  lemma ShlAdd(a: nat, b: nat, n: nat)
    ensures Shl(a + b, n) == Shl(a, n) + Shl(b, n)
  {
    if n > 0 { ShlAdd(a, b, n - 1); }
  }

  lemma ShlShl(a: nat, m: nat, n: nat)
    ensures Shl(Shl(a, m), n) == Shl(a, m + n)
  {
  }

  lemma ShlDouble(a: nat, n: nat)
    ensures Shl(2 * a, n) == 2 * Shl(a, n) == Shl(a, n + 1)
  {
    if n > 0 { ShlDouble(a, n - 1); }
  }

  lemma ShlMono(a: nat, b: nat, n: nat)
    ensures a <= b ==> Shl(a, n) <= Shl(b, n)
    ensures a < b ==> Shl(a, n) + Pow2(n) <= Shl(b, n)
  {
  }

  lemma ShlPow2(m: nat, n: nat)
    ensures Shl(Pow2(m), n) == Pow2(m + n)
  {
  }

  lemma Shl1(n: nat)
    ensures Shl(1, n) == Pow2(n) && Shl(0, n) == 0
  {
  }

  lemma Pow2Mono(m: nat, n: nat)
    requires m <= n
    ensures Pow2(m) <= Pow2(n)
    decreases n
  {
    if m < n { Pow2Mono(m, n - 1); }
  }

  /** A value is its high part and its low part. */
  lemma {:induction false} ShlShrLow(v: nat, n: nat)
    ensures v == Shl(Shr(v, n), n) + Low(v, n)
    ensures Low(v, n) < Pow2(n)
  {
    if n > 0 { ShlShrLow(v / 2, n - 1); }
  }

  /** ... and that splitting is unique. */
  lemma {:induction false} ShrLowUnique(v: nat, n: nat, q: nat, r: nat)
    requires v == Shl(q, n) + r && r < Pow2(n)
    ensures Shr(v, n) == q && Low(v, n) == r
  {
    if n > 0 {
      ShrLowUnique(v / 2, n - 1, q, r / 2);
    }
  }

  lemma ShrShl(q: nat, n: nat)
    ensures Shr(Shl(q, n), n) == q && Low(Shl(q, n), n) == 0
  {
    ShrLowUnique(Shl(q, n), n, q, 0);
  }

  lemma LowSmall(v: nat, n: nat)
    requires v < Pow2(n)
    ensures Low(v, n) == v && Shr(v, n) == 0
  {
    Shl1(n);
    ShrLowUnique(v, n, 0, v);
  }

  lemma {:induction false} ShrBound(v: nat, m: nat, n: nat)
    requires v < Pow2(m + n)
    ensures Shr(v, n) < Pow2(m)
  {
    ShlShrLow(v, n);
    if Shr(v, n) >= Pow2(m) {
      ShlMono(Pow2(m), Shr(v, n), n);
      ShlPow2(m, n);
    }
  }

  // ---- values and bit strings ----

  lemma {:induction false} FromToBits(v: nat, n: nat)
    ensures FromBits(ToBits(v, n)) == Low(v, n)
  {
    if n > 0 {
      FromToBits(v / 2, n - 1);
      assert ToBits(v, n)[1..] == ToBits(v / 2, n - 1);
    }
  }

  lemma {:induction false} ToFromBits(b: seq<bool>)
    ensures ToBits(FromBits(b), |b|) == b
  {
    if b != [] {
      ToFromBits(b[1..]);
      assert b == [b[0]] + b[1..];
    }
  }

  lemma {:induction false} MsbMsbBits(v: nat, n: nat)
    requires v < Pow2(n)
    ensures Msb(MsbBits(v, n)) == v
  {
    if n > 0 {
      MsbMsbBits(v / 2, n - 1);
      assert MsbBits(v, n)[..n - 1] == MsbBits(v / 2, n - 1);
    }
  }

  lemma {:induction false} MsbBitsMsb(b: seq<bool>)
    ensures MsbBits(Msb(b), |b|) == b
  {
    if b != [] {
      var n := |b| - 1;
      MsbBitsMsb(b[..n]);
      assert b == b[..n] + [b[n]];
    }
  }

  lemma {:induction false} FromBitsConcat(a: seq<bool>, b: seq<bool>)
    ensures FromBits(a + b) == FromBits(a) + Shl(FromBits(b), |a|)
  {
    if a == [] {
      assert a + b == b;
    } else {
      FromBitsConcat(a[1..], b);
      assert (a + b)[1..] == a[1..] + b;
    }
  }

  lemma {:induction false} MsbConcat(a: seq<bool>, b: seq<bool>)
    ensures Msb(a + b) == Shl(Msb(a), |b|) + Msb(b)
  {
    if b == [] {
      assert a + b == a;
    } else {
      var n := |b| - 1;
      MsbConcat(a, b[..n]);
      assert (a + b)[..|a + b| - 1] == a + b[..n];
    }
  }

  lemma {:induction false} FromBitsZeros(n: nat)
    ensures FromBits(Zeros(n)) == 0
  {
    if n > 0 {
      FromBitsZeros(n - 1);
      assert Zeros(n)[1..] == Zeros(n - 1);
    }
  }

  lemma FromBitsInjective(a: seq<bool>, b: seq<bool>)
    requires |a| == |b| && FromBits(a) == FromBits(b)
    ensures a == b
  {
    ToFromBits(a);
    ToFromBits(b);
  }

  lemma MsbInjective(a: seq<bool>, b: seq<bool>)
    requires |a| == |b| && Msb(a) == Msb(b)
    ensures a == b
  {
    MsbBitsMsb(a);
    MsbBitsMsb(b);
  }

  lemma {:induction false} BytesBitsConcat(a: seq<byte>, b: seq<byte>)
    ensures BytesBits(a + b) == BytesBits(a) + BytesBits(b)
  {
    hide ToBits;
    if a == [] {
      assert a + b == b && BytesBits(a) == [];
    } else {
      var x, y, z := ToBits(a[0], 8), BytesBits(a[1..]), BytesBits(b);
      FirstByte(a);
      FirstByte(a + b);
      assert (a + b)[0] == a[0] && (a + b)[1..] == a[1..] + b;
      BytesBitsConcat(a[1..], b);
      Rebracket(x, y, z);
    }
  }

  lemma {:induction false} FirstByte(s: seq<byte>)
    requires s != []
    ensures BytesBits(s) == ToBits(s[0], 8) + BytesBits(s[1..])
  {
    hide ToBits;
  }

  lemma {:induction false} Rebracket<T>(a: seq<T>, b: seq<T>, c: seq<T>)
    ensures a + (b + c) == (a + b) + c
  {
  }

  /** Splitting a value at bit m splits its bit string. */
  lemma {:induction false} ToBitsSplit(v: nat, m: nat, n: nat)
    ensures ToBits(v, m + n) == ToBits(v, m) + ToBits(Shr(v, m), n)
  {
    if m > 0 {
      ToBitsSplit(v / 2, m - 1, n);
    }
  }

  lemma {:induction false} ToBitsLow(v: nat, n: nat)
    ensures ToBits(Low(v, n), n) == ToBits(v, n)
  {
    if n > 0 { ToBitsLow(v / 2, n - 1); }
  }

  lemma FromBitsSplit(lo: seq<bool>, hi: seq<bool>)
    ensures Low(FromBits(lo + hi), |lo|) == FromBits(lo)
    ensures Shr(FromBits(lo + hi), |lo|) == FromBits(hi)
  {
    FromBitsConcat(lo, hi);
    ShrLowUnique(FromBits(lo + hi), |lo|, FromBits(hi), FromBits(lo));
  }

  /** Reading m of the bits of b as a number, and dropping them. */
  lemma FromBitsTakeDrop(b: seq<bool>, m: nat)
    requires m <= |b|
    ensures Low(FromBits(b), m) == FromBits(b[..m])
    ensures Shr(FromBits(b), m) == FromBits(b[m..])
  {
    var lo, hi := b[..m], b[m..];
    var c := lo + hi;
    assert c == b;
    FromBitsSplit(lo, hi);
    assert Low(FromBits(c), m) == FromBits(lo);
  }

  lemma MsbTakeDrop(b: seq<bool>, m: nat)
    requires m <= |b|
    ensures Shr(Msb(b), |b| - m) == Msb(b[..m])
    ensures Low(Msb(b), |b| - m) == Msb(b[m..])
  {
    MsbConcat(b[..m], b[m..]);
    assert b == b[..m] + b[m..];
    ShrLowUnique(Msb(b), |b| - m, Msb(b[..m]), Msb(b[m..]));
  }
}
