/** Adler-32 (adler32.c): two sums modulo 65521, reduced only as often as 32 bits ask for, and
    the checksum of two pieces from those of each. */
module Adler32 {
  import opened Bits

  /** An unsigned 32-bit integer: every value assigned to one is checked to fit. */
  type u32 = n: int | 0 <= n < 0x1_0000_0000

  const BASE: nat := 65521
  const NMAX: nat := 5552

  datatype Sums = Sums(a: nat, b: nat)

  /** Both sums over data, never reduced, going on from s. */
  function Added(s: Sums, data: seq<byte>): Sums {
    if data == [] then s
    else
      var t := Added(s, data[..|data| - 1]);
      var a := t.a + data[|data| - 1];
      Sums(a, t.b + a)
  }

  /** Both sums, reduced at every byte, as in section 9 of RFC 1950. */
  function Adler(s: Sums, data: seq<byte>): Sums {
    if data == [] then s
    else
      var t := Adler(s, data[..|data| - 1]);
      var a := (t.a + data[|data| - 1]) % BASE;
      Sums(a, (t.b + a) % BASE)
  }

  function Reduced(s: Sums): Sums {
    Sums(s.a % BASE, s.b % BASE)
  }

  predicate IsReduced(s: Sums) {
    s.a < BASE && s.b < BASE
  }

  /** The two sums in one word. */
  function Word(s: Sums): (w: u32)
    requires IsReduced(s)
  {
    s.a + 65536 * s.b
  }

  function Halves(w: u32): Sums {
    Sums(w % 65536, w / 65536)
  }

  /** The checksum of all data. */
  function Checksum(data: seq<byte>): u32 {
    AdlerReduced(Sums(1, 0), data);
    Word(Adler(Sums(1, 0), data))
  }

  lemma {:induction false} AdlerReduced(s: Sums, data: seq<byte>)
    requires IsReduced(s)
    ensures IsReduced(Adler(s, data))
    decreases |data|
  {
    if data != [] { AdlerReduced(s, data[..|data| - 1]); }
  }

  lemma {:induction false} WordHalves(s: Sums)
    requires IsReduced(s)
    ensures Halves(Word(s)) == s
  {
  }

  /** Reducing at the end is as good as reducing all the time. */
  lemma {:induction false} Deferred(s: Sums, data: seq<byte>)
    ensures Adler(Reduced(s), data) == Reduced(Added(s, data))
    decreases |data|
  {
    if data != [] {
      var n := |data| - 1;
      Deferred(s, data[..n]);
      var t := Added(s, data[..n]);
      ModSum(t.a, data[n]);
      ModSum(t.b, t.a + data[n]);
    }
  }

  /** The sum of all bytes, and the sum that counts each byte once for every byte from it on. */
  function ByteSum(data: seq<byte>): nat {
    if data == [] then 0 else data[0] + ByteSum(data[1..])
  }

  function Weighted(data: seq<byte>): nat {
    if data == [] then 0 else Mult(|data|, data[0]) + Weighted(data[1..])
  }

  /** The checksum in closed form, with its two moduli spelled out. */
  lemma {:induction false} ClosedForm(data: seq<byte>)
    ensures Checksum(data) == (1 + ByteSum(data)) % 65521 + 65536 * ((|data| + Weighted(data)) % 65521)
  {
    Deferred(Sums(1, 0), data);
    AddedClosed(Sums(1, 0), data);
    assert Mult(|data|, 1) == |data|;
  }

  lemma {:induction false} AddedClosed(s: Sums, data: seq<byte>)
    ensures Added(s, data) == Sums(s.a + ByteSum(data), s.b + Mult(|data|, s.a) + Weighted(data))
    decreases |data|
  {
    if data != [] {
      var t := Sums(s.a + data[0], s.b + s.a + data[0]);
      AddedFirst(s, data);
      AddedClosed(t, data[1..]);
      MultStep(|data| - 1, s.a);
      MultStep(|data| - 1, data[0]);
      MultAdd(|data| - 1, s.a, data[0]);
    } else {
      assert Mult(0, s.a) == 0;
    }
  }

  lemma {:induction false} MultAdd(x: nat, y: nat, z: nat)
    ensures Mult(x, y + z) == Mult(x, y) + Mult(x, z)
  {
    assert x * (y + z) == x * y + x * z;
  }

  /** The first byte, and then the others. */
  lemma {:induction false} AddedFirst(s: Sums, data: seq<byte>)
    requires data != []
    ensures Added(s, data) == Added(Sums(s.a + data[0], s.b + s.a + data[0]), data[1..])
    decreases |data|
  {
    var n := |data| - 1;
    if n > 0 {
      AddedFirst(s, data[..n]);
      assert data[..n][1..] == data[1..][..n - 1] && data[1..][n - 1] == data[n];
    } else {
      assert data[..0] == [] && data[1..] == [];
    }
  }

  lemma {:induction false} ModSum(x: nat, y: nat)
    ensures (x % BASE + y) % BASE == (x + y) % BASE == (x % BASE + y % BASE) % BASE
  {
    ModShift(x % BASE + y, x / BASE);
    ModShift(x % BASE + y % BASE, x / BASE + y / BASE);
  }

  lemma {:induction false} AdlerConcat(s: Sums, x: seq<byte>, y: seq<byte>)
    ensures Adler(s, x + y) == Adler(Adler(s, x), y)
    decreases |y|
  {
    if y == [] {
      assert x + y == x;
    } else {
      var n := |y| - 1;
      AdlerConcat(s, x, y[..n]);
      assert (x + y)[..|x + y| - 1] == x + y[..n];
    }
  }

  function Mult(x: nat, y: nat): nat {
    x * y
  }

  lemma {:induction false} MultStep(x: nat, y: nat)
    ensures Mult(x + 1, y) == Mult(x, y) + y
  {
    assert (x + 1) * y == x * y + y;
  }

  /** How large the sums can become over n bytes. */
  lemma {:induction false} Bound(s: Sums, data: seq<byte>)
    requires IsReduced(s)
    ensures Added(s, data).a <= BASE - 1 + 255 * |data|
    ensures 2 * Added(s, data).b <= 2 * Mult(|data| + 1, BASE - 1) + 255 * Mult(|data|, |data| + 1)
    decreases |data|
  {
    hide Mult;
    var n := |data|;
    MultStep(n, BASE - 1);
    if n == 0 {
      assert Mult(0, 1) == 0 && Mult(0, BASE - 1) == 0 by { MultZero(1); MultZero(BASE - 1); }
    } else {
      Bound(s, data[..n - 1]);
      MultSquares(n);
    }
  }

  lemma {:induction false} MultZero(y: nat)
    ensures Mult(0, y) == 0
  {
  }

  lemma {:induction false} MultSquares(n: nat)
    requires n > 0
    ensures Mult(n, n + 1) == Mult(n - 1, n) + 2 * n
  {
    assert n * (n + 1) == (n - 1) * n + 2 * n;
  }

  lemma {:induction false} MultMono(x: nat, y: nat, z: nat)
    requires x <= y
    ensures Mult(x, z) <= Mult(y, z) && Mult(x, x + 1) <= Mult(y, y + 1)
  {
    assert (y - x) * z >= 0 && y * z == x * z + (y - x) * z;
    assert y * (y + 1) == x * (x + 1) + (y - x) * (y + x + 1) && (y - x) * (y + x + 1) >= 0;
  }

  /** NMAX bytes do not take the sums past 32 bits ... */
  lemma {:induction false} Fits(s: Sums, data: seq<byte>)
    requires IsReduced(s) && |data| <= NMAX
    ensures Added(s, data).a < 0x1_0000_0000 && Added(s, data).b < 0x1_0000_0000
    ensures |data| < 16 ==> Added(s, data).a < 2 * BASE
  {
    hide Mult;
    Bound(s, data);
    MultMono(|data| + 1, NMAX + 1, BASE - 1);
    MultMono(|data|, NMAX, 0);
    assert Mult(NMAX + 1, BASE - 1) == 5553 * 65520 && Mult(NMAX, NMAX + 1) == 5552 * 5553 by { Products(); }
  }

  lemma {:induction false} Products()
    ensures Mult(NMAX + 1, BASE - 1) == 5553 * 65520 && Mult(NMAX, NMAX + 1) == 5552 * 5553
  {
  }

  function Most(n: nat): seq<byte> {
    seq(n, i => 255)
  }

  /** ... and one byte more can. */
  lemma {:induction false} NmaxIsExact()
    ensures Added(Sums(BASE - 1, BASE - 1), Most(NMAX + 1)).b >= 0x1_0000_0000
  {
    hide Mult;
    MostSum(NMAX + 1);
    assert Mult(NMAX + 2, BASE - 1) == 5554 * 65520 && Mult(NMAX + 1, NMAX + 2) == 5553 * 5554 by { MoreProducts(); }
  }

  lemma {:induction false} MoreProducts()
    ensures Mult(NMAX + 2, BASE - 1) == 5554 * 65520 && Mult(NMAX + 1, NMAX + 2) == 5553 * 5554
  {
  }

  lemma {:induction false} MostSum(n: nat)
    ensures var t := Added(Sums(BASE - 1, BASE - 1), Most(n));
            t.a == BASE - 1 + 255 * n && 2 * t.b == 2 * Mult(n + 1, BASE - 1) + 255 * Mult(n, n + 1)
    decreases n
  {
    hide Mult;
    MultStep(n, BASE - 1);
    if n == 0 {
      assert Mult(0, 1) == 0 && Mult(0, BASE - 1) == 0 by { MultZero(1); MultZero(BASE - 1); }
    } else {
      MostSum(n - 1);
      assert Most(n)[..n - 1] == Most(n - 1);
      MultSquares(n);
    }
  }

  lemma {:induction false} AddedNext(s: Sums, data: seq<byte>, i: nat)
    requires i < |data|
    ensures Added(s, data[..i + 1]) == (var t := Added(s, data[..i]); Sums(t.a + data[i], t.b + (t.a + data[i])))
  {
    assert data[..i + 1][..i] == data[..i];
  }

  // ---- adler32_z ----

  /** Add the bytes from i to j, at most NMAX of them, without reducing. */
  method AddBytes(buf: array<byte>, i: nat, j: nat, a0: u32, b0: u32) returns (a: u32, b: u32)
    requires i <= j <= buf.Length && j - i <= NMAX && IsReduced(Sums(a0, b0))
    ensures Sums(a, b) == Added(Sums(a0, b0), buf[i..j])
  {
    hide Added;
    a, b := a0, b0;
    ghost var s, data := Sums(a0, b0), buf[i..j];
    assert Added(s, data[..0]) == s by { AddedNone(s); }
    for k := i to j
      invariant Sums(a, b) == Added(s, data[..k - i])
    {
      AddedNext(s, data, k - i);
      Fits(s, data[..k - i + 1]);
      a := a + buf[k];
      b := b + a;
    }
    assert data[..j - i] == data;
  }

  lemma {:induction false} AddedNone(s: Sums)
    ensures Added(s, []) == s && Adler(s, []) == s
  {
  }

  /** The sums of a piece, reduced at the end of it. */
  lemma {:induction false} PieceDone(s: Sums, data: seq<byte>, i: nat, j: nat)
    requires i <= j <= |data| && IsReduced(Adler(s, data[..i]))
    ensures Adler(s, data[..j]) == Reduced(Added(Adler(s, data[..i]), data[i..j]))
  {
    hide Adler, Added;
    assert data[..j] == data[..i] + data[i..j];
    AdlerConcat(s, data[..i], data[i..j]);
    Deferred(Adler(s, data[..i]), data[i..j]);
    assert Reduced(Adler(s, data[..i])) == Adler(s, data[..i]);
  }

  /** adler32_z. The length 1 is looked at before the buffer is. */
  method Adler32Z(adler: u32, buf: array?<byte>, len: nat) returns (r: u32)
    requires IsReduced(Halves(adler))
    requires if buf == null then len != 1 else len <= buf.Length
    ensures if buf == null then r == 1
            else IsReduced(Adler(Halves(adler), buf[..len])) && r == Word(Adler(Halves(adler), buf[..len]))
  {
    hide Adler, Added, Word;
    ghost var s := Halves(adler);
    var sum2: u32, sum1: u32 := adler / 65536, adler % 65536;
    if len == 1 {
      OneByte(s, buf[..1]);
      sum1 := sum1 + buf[0];
      if sum1 >= BASE { sum1 := sum1 - BASE; }
      sum2 := sum2 + sum1;
      if sum2 >= BASE { sum2 := sum2 - BASE; }
      return Word(Sums(sum1, sum2));
    }
    if buf == null { return 1; }
    AddedNone(s);
    assert buf[..][..0] == [] && buf[..][..len] == buf[..len];
    AdlerReduced(s, buf[..len]);
    if len < 16 {
      PieceDone(s, buf[..], 0, len);
      Fits(s, buf[0..len]);
      assert buf[..][0..len] == buf[0..len];
      sum1, sum2 := AddBytes(buf, 0, len, sum1, sum2);
      if sum1 >= BASE { sum1 := sum1 - BASE; }
      sum2 := sum2 % BASE;
      return Word(Sums(sum1, sum2));
    }
    var i := 0;
    while len - i >= NMAX
      invariant i <= len && Sums(sum1, sum2) == Adler(s, buf[..][..i]) && sum1 < BASE && sum2 < BASE
    {
      PieceDone(s, buf[..], i, i + NMAX);
      assert buf[..][i..i + NMAX] == buf[i..i + NMAX];
      sum1, sum2 := AddBytes(buf, i, i + NMAX, sum1, sum2);
      sum1, sum2 := sum1 % BASE, sum2 % BASE;
      i := i + NMAX;
    }
    if i < len {
      PieceDone(s, buf[..], i, len);
      assert buf[..][i..len] == buf[i..len];
      sum1, sum2 := AddBytes(buf, i, len, sum1, sum2);
      sum1, sum2 := sum1 % BASE, sum2 % BASE;
    }
    r := Word(Sums(sum1, sum2));
  }

  lemma {:induction false} OneByte(s: Sums, data: seq<byte>)
    requires |data| == 1 && IsReduced(s)
    ensures var a := s.a + data[0];
            var a1 := if a >= BASE then a - BASE else a;
            var b := s.b + a1;
            Adler(s, data) == Sums(a1, if b >= BASE then b - BASE else b)
  {
    assert data[..0] == [];
    assert Adler(s, data[..0]) == s;
  }

  // ---- adler32_combine_ ----

  /** What the start adds to the sums. */
  lemma {:induction false} Start(s: Sums, data: seq<byte>)
    requires s.a >= 1
    ensures Added(s, data).a == Added(Sums(1, 0), data).a + (s.a - 1)
    ensures Added(s, data).b == Added(Sums(1, 0), data).b + s.b + Mult(|data|, s.a - 1)
    decreases |data|
  {
    hide Mult;
    if data == [] {
      MultZero(s.a - 1);
    } else {
      Start(s, data[..|data| - 1]);
      MultStep(|data| - 1, s.a - 1);
    }
  }

  lemma {:induction false} ModProduct(n: nat, a: nat)
    ensures Mult(n % BASE, a) % BASE == Mult(n, a) % BASE
  {
    var q := n / BASE;
    assert n == q * BASE + n % BASE;
    assert n * a == (n % BASE) * a + (q * a) * BASE;
    ModShift((n % BASE) * a, q * a);
  }

  lemma {:induction false} ModShift(x: nat, k: nat)
    ensures (x + k * BASE) % BASE == x % BASE
  {
  }

  lemma {:induction false} MultLess(n: nat, a: nat)
    ensures Mult(n, a + 1) == Mult(n, a) + n
  {
    assert n * (a + 1) == n * a + n;
  }

  /** The checksum of x + y from those of x and of y. */
  lemma {:induction false} Combined(x: seq<byte>, y: seq<byte>)
    ensures var s, t := Adler(Sums(1, 0), x), Adler(Sums(1, 0), y);
            var r := |y| % BASE;
            IsReduced(s) && IsReduced(t)
            && Adler(Sums(1, 0), x + y)
               == Sums((s.a + t.a + BASE - 1) % BASE, (Mult(r, s.a) % BASE + s.b + t.b + BASE - r) % BASE)
  {
    hide Mult, Adler, Added;
    var one, n := Sums(1, 0), |y|;
    var s, t := Adler(one, x), Adler(one, y);
    AdlerReduced(one, x);
    AdlerReduced(one, y);
    AdlerConcat(one, x, y);
    var u := Sums(s.a + BASE, s.b);
    Deferred(u, y);
    assert Reduced(u) == s && Reduced(one) == one;
    Deferred(one, y);
    Start(u, y);
    var p := Added(one, y);
    assert t == Reduced(p) && Adler(one, x + y) == Reduced(Added(u, y));
    ModSum(p.a, s.a + BASE - 1);
    MultLess(n, s.a + BASE - 1);
    ModProduct(n, s.a);
    MultTimes(n, s.a);
    CombineMod(p.b, s.b, Mult(n, s.a), n, Mult(n % BASE, s.a));
  }

  lemma {:induction false} MultTimes(n: nat, a: nat)
    ensures Mult(n, a + BASE) == Mult(n, a) + n * BASE
  {
    assert n * (a + BASE) == n * a + n * BASE;
  }

  lemma {:induction false} CombineMod(b2: nat, b1: nat, m: nat, n: nat, k: nat)
    requires k % BASE == m % BASE && b1 < BASE && m + n * BASE >= n
    ensures (b2 + b1 + (m + n * BASE - n)) % BASE == (k % BASE + b1 + b2 % BASE + BASE - n % BASE) % BASE
  {
    var r, q := n % BASE, n / BASE;
    var c, d := b2 / BASE, m / BASE;
    assert n == q * BASE + r && b2 == c * BASE + b2 % BASE && m == d * BASE + m % BASE;
    var x := b2 % BASE + b1 + m % BASE + BASE - r;
    assert b2 + b1 + (m + n * BASE - n) == x + (c + d + n - q - 1) * BASE;
    assert c + d + n - q - 1 >= -1;
    ModShiftInt(x, c + d + n - q - 1);
  }

  lemma {:induction false} ModShiftInt(x: int, k: int)
    ensures (x + k * BASE) % BASE == x % BASE
  {
  }

  /** adler32_combine_, with its answer to a negative length. */
  method Combine(adler1: u32, adler2: u32, len2: int) returns (r: u32)
    requires IsReduced(Halves(adler1)) && IsReduced(Halves(adler2))
    ensures len2 < 0 ==> r == 0xffff_ffff
    ensures len2 >= 0 ==> IsReduced(Halves(r))
    ensures forall x: seq<byte>, y: seq<byte> ::
              adler1 == Checksum(x) && adler2 == Checksum(y) && len2 == |y| ==> r == Checksum(x + y)
  {
    hide Mult, Checksum, Word;
    if len2 < 0 { return 0xffff_ffff; }
    var rem := len2 % BASE;
    var sum1: u32 := adler1 % 65536;
    ProductFits(rem, sum1);
    var sum2: u32 := rem * sum1;
    sum2 := sum2 % BASE;
    sum1 := sum1 + adler2 % 65536 + BASE - 1;
    sum2 := sum2 + adler1 / 65536 + adler2 / 65536 + BASE - rem;
    ghost var c1, c2 := sum1, sum2;
    Chopped(c1);
    Chopped(c2);
    if sum1 >= BASE { sum1 := sum1 - BASE; }
    if sum1 >= BASE { sum1 := sum1 - BASE; }
    if sum2 >= 2 * BASE { sum2 := sum2 - 2 * BASE; }
    if sum2 >= BASE { sum2 := sum2 - BASE; }
    r := Word(Sums(sum1, sum2));
    WordHalves(Sums(sum1, sum2));
    forall x: seq<byte>, y: seq<byte> | adler1 == Checksum(x) && adler2 == Checksum(y) && len2 == |y|
      ensures r == Checksum(x + y)
    {
      CombinedWords(x, y);
    }
  }

  /** Taking 65521 off, as often as it takes. */
  lemma {:induction false} Chopped(x: nat)
    ensures x % BASE == if x < BASE then x else if x < 2 * BASE then x - BASE
        else if x < 3 * BASE then x - 2 * BASE else if x < 4 * BASE then x - 3 * BASE else x % BASE
  {
  }

  lemma {:induction false} ProductFits(rem: nat, a: nat)
    requires rem < BASE && a < BASE
    ensures rem * a < 0x1_0000_0000 && rem * a == Mult(rem, a)
  {
    MultMono(rem, BASE, a);
    assert BASE * a <= 65521 * 65520;
  }

  lemma {:induction false} CombinedWords(x: seq<byte>, y: seq<byte>)
    ensures var s, t := Halves(Checksum(x)), Halves(Checksum(y));
            var r := |y| % BASE;
            var a, b := (s.a + t.a + BASE - 1) % BASE, (Mult(r, s.a) % BASE + s.b + t.b + BASE - r) % BASE;
            Checksum(x + y) == Word(Sums(a, b))
  {
    hide Mult, Adler, Word;
    Combined(x, y);
    WordHalves(Adler(Sums(1, 0), x));
    WordHalves(Adler(Sums(1, 0), y));
  }
}
