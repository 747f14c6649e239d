/** The rolling hash of the matcher (deflate.c): three bytes, kept by shift, exclusive or and
    mask, and what the matcher relies on: the hash forgets the fourth byte back, and equal
    hashes with equal first two bytes mean equal third bytes. */
module Hash {
  import opened Bits

  const MIN_MATCH: nat := 3

  /** x ^ y */
  function Xor(x: nat, y: nat): nat {
    if x == 0 && y == 0 then 0 else (x % 2 + y % 2) % 2 + 2 * Xor(x / 2, y / 2)
  }

  /** hash_shift, for hash_bits bits. */
  function Shift(bits: nat): (s: nat)
    ensures 3 * s >= bits
  {
    (bits + MIN_MATCH - 1) / MIN_MATCH
  }

  /** UPDATE_HASH */
  function Update(bits: nat, h: nat, c: byte): nat {
    Low(Xor(Shl(h, Shift(bits)), c), bits)
  }

  /** The key of a string, as it is computed from nothing. */
  function Key(bits: nat, a: byte, b: byte, c: byte): nat {
    Update(bits, Update(bits, a, b), c)
  }

  // ---- exclusive or ----

  lemma {:induction false} XorLow(x: nat, y: nat, n: nat)
    ensures Low(Xor(x, y), n) == Xor(Low(x, n), Low(y, n))
  {
    if n == 0 {
      XorNone();
    } else {
      XorLow(x / 2, y / 2, n - 1);
      XorOne(x, y);
      LowOne(x, n);
      LowOne(y, n);
      XorOne(Low(x, n), Low(y, n));
      LowOne(Xor(x, y), n);
      hide Xor, Low;
    }
  }

  lemma {:induction false} XorNone()
    ensures Xor(0, 0) == 0
  {
  }

  lemma {:induction false} XorOne(x: nat, y: nat)
    ensures Xor(x, y) == (x % 2 + y % 2) % 2 + 2 * Xor(x / 2, y / 2)
  {
    if x == 0 && y == 0 { XorNone(); }
  }

  lemma {:induction false} LowOne(v: nat, n: nat)
    requires n > 0
    ensures Low(v, n) == v % 2 + 2 * Low(v / 2, n - 1) && Low(v, n) % 2 == v % 2 && Low(v, n) / 2 == Low(v / 2, n - 1)
  {
  }

  lemma {:induction false} XorHalf(x: nat, y: nat)
    ensures Xor(x, y) / 2 == Xor(x / 2, y / 2) && Xor(x, y) % 2 == (x % 2 + y % 2) % 2
  {
  }

  lemma {:induction false} XorCancel(x: nat, c: nat, d: nat)
    requires Xor(x, c) == Xor(x, d)
    ensures c == d
    decreases x + c + d
  {
    if x + c + d > 0 {
      XorHalf(x, c);
      XorHalf(x, d);
      XorCancel(x / 2, c / 2, d / 2);
    }
  }

  lemma {:induction false} XorZero(y: nat)
    ensures Xor(0, y) == y
  {
    if y > 0 { XorZero(y / 2); }
  }

  // ---- low bits ----

  lemma {:induction false} LowLow(v: nat, m: nat, n: nat)
    ensures Low(Low(v, n), m) == Low(v, if m <= n then m else n)
  {
    if m > 0 && n > 0 {
      LowLow(v / 2, m - 1, n - 1);
    } else if m > 0 {
      LowZero(m);
    }
  }

  lemma {:induction false} LowZero(m: nat)
    ensures Low(0, m) == 0
  {
    if m > 0 { LowZero(m - 1); }
  }

  lemma {:induction false} LowLess(u: nat, v: nat, m: nat, n: nat)
    requires m <= n && Low(u, n) == Low(v, n)
    ensures Low(u, m) == Low(v, m)
  {
    LowLow(u, m, n);
    LowLow(v, m, n);
  }

  /** Values that agree on k bits agree on k + s after a shift by s. */
  lemma {:induction false} ShlAgree(u: nat, v: nat, s: nat, k: nat)
    requires Low(u, k) == Low(v, k)
    ensures Low(Shl(u, s), k + s) == Low(Shl(v, s), k + s)
  {
    if s > 0 { ShlAgree(u, v, s - 1, k); }
  }

  // ---- the hash ----

  lemma {:induction false} UpdateBound(bits: nat, h: nat, c: byte)
    ensures Update(bits, h, c) < Pow2(bits)
  {
    ShlShrLow(Xor(Shl(h, Shift(bits)), c), bits);
  }

  /** Hashes that agree on k bits agree on a shift more after an update. */
  lemma {:induction false} UpdateAgree(bits: nat, g: nat, h: nat, c: byte, k: nat)
    requires Low(g, k) == Low(h, k)
    ensures Low(Update(bits, g, c), k + Shift(bits)) == Low(Update(bits, h, c), k + Shift(bits))
  {
    hide Low, Shl, Xor;
    var s := Shift(bits);
    var x, y := Shl(g, s), Shl(h, s);
    ShlAgree(g, h, s, k);
    XorLow(x, c, k + s);
    XorLow(y, c, k + s);
    LowLow(Xor(x, c), k + s, bits);
    LowLow(Xor(y, c), k + s, bits);
    if k + s > bits { LowLess(Xor(x, c), Xor(y, c), bits, k + s); }
  }

  lemma {:induction false} UpdateLow(bits: nat, h: nat, c: byte)
    requires bits >= 8
    ensures Low(Update(bits, h, c), Shift(bits)) == Low(c, Shift(bits))
  {
    hide Low, Shl, Xor;
    var s := Shift(bits);
    LowNone(h);
    LowNone(0);
    ShlAgree(h, 0, s, 0);
    ShlZero(s);
    XorLow(Shl(h, s), c, s);
    XorLow(0, c, s);
    XorZero(c);
    LowLow(Xor(Shl(h, s), c), s, bits);
  }

  lemma {:induction false} LowNone(h: nat)
    ensures Low(h, 0) == 0
  {
  }

  lemma {:induction false} ShlZero(s: nat)
    ensures Shl(0, s) == 0
  {
    if s > 0 { ShlZero(s - 1); }
  }

  /** The hash rolls: one more byte makes the key of a string into that of the next. */
  lemma {:induction false} KeyRolls(bits: nat, a: byte, b: byte, c: byte, d: byte)
    requires bits >= 8
    ensures Update(bits, Key(bits, a, b, c), d) == Key(bits, b, c, d)
  {
    hide Low, Update;
    var s := Shift(bits);
    var h := Update(bits, a, b);
    UpdateLow(bits, a, b);
    UpdateAgree(bits, h, b, c, s);
    UpdateAgree(bits, Update(bits, h, c), Update(bits, b, c), d, 2 * s);
    var x, y := Update(bits, Update(bits, h, c), d), Update(bits, Update(bits, b, c), d);
    UpdateBound(bits, Update(bits, h, c), d);
    UpdateBound(bits, Update(bits, b, c), d);
    LowLess(x, y, bits, 3 * s);
    LowSmall(x, bits);
    LowSmall(y, bits);
  }

  /** With equal keys and equal first two bytes, the third bytes need not be compared. */
  lemma {:induction false} ThirdByte(bits: nat, a: byte, b: byte, c: byte, d: byte)
    requires bits >= 8 && Key(bits, a, b, c) == Key(bits, a, b, d)
    ensures c == d
  {
    hide Low, Shl, Xor;
    var x := Shl(Update(bits, a, b), Shift(bits));
    LowLess(Xor(x, c), Xor(x, d), 8, bits);
    XorLow(x, c, 8);
    XorLow(x, d, 8);
    assert Pow2(8) == 256;
    LowSmall(c, 8);
    LowSmall(d, 8);
    XorCancel(Low(x, 8), c, d);
  }

  lemma {:induction false} KeyBound(bits: nat, a: byte, b: byte, c: byte)
    ensures Key(bits, a, b, c) < Pow2(bits)
  {
    UpdateBound(bits, Update(bits, a, b), c);
  }

  /** The bound on hash_bits is needed: with seven bits, two strings that differ in their
      third byte only have the same key. */
  lemma {:induction false} SevenBitsAreNotEnough()
    ensures Key(7, 0, 0, 0) == Key(7, 0, 0, 128)
  {
    assert Xor(0, 128) == 128 by { XorZero(128); }
    assert Low(128, 7) == 0 == Low(0, 7);
    assert Shl(0, 3) == 0;
  }
}
