/** CRC-32 (crc32.c): the shift register as arithmetic on polynomials over GF(2) modulo p(x),
    with the lowest powers in the most significant bits. The braided computation, the tables it
    reads and the combination of checksums are all tied to the register that takes the data in
    one bit at a time, and that register to division of polynomials. */
module Crc32 {
  import opened Bits

  /** A 32-bit unsigned integer of C. */
  datatype Word = Word(bits: bv32)

  const ZERO: Word := Word(0)
  const POLY: Word := Word(0xedb88320)   // p(x), with x^32 implied
  const ONE: Word := Word(0x80000000)    // x^0
  const ALL: Word := Word(0xffffffff)

  // ---- bit operations ----

  function Xor32(a: bv32, b: bv32): bv32 {
    a ^ b
  }

  function And32(a: bv32, b: bv32): bv32 {
    a & b
  }

  function Half32(a: bv32): bv32 {
    a >> 1
  }

  function Double32(a: bv32): bv32 {
    a << 1
  }

  /** The sum of polynomials: exclusive or. */
  function Add(a: Word, b: Word): Word {
    Word(Xor32(a.bits, b.bits))
  }

  function And(a: Word, b: Word): Word {
    Word(And32(a.bits, b.bits))
  }

  function Half(v: Word): Word {
    Word(Half32(v.bits))
  }

  function Double(v: Word): Word {
    Word(Double32(v.bits))
  }

  predicate Odd(v: Word) {
    v.bits & 1 == 1
  }

  predicate Has(a: Word, m: Word) {
    And(a, m) != ZERO
  }

  /** m - 1: the bits below a single one. */
  function Below(m: Word): Word {
    Word(m.bits - 1)
  }

  function Not(v: Word): Word {
    Add(v, ALL)
  }

  // ---- the register ----

  /** One step of the register: multiplication by x. */
  function X(v: Word): Word {
    if Odd(v) then Add(Half(v), POLY) else Half(v)
  }

  function XN(v: Word, n: nat): Word
    decreases n
  {
    if n == 0 then v else XN(X(v), n - 1)
  }

  function Bit(b: bool): Word {
    if b then Word(1) else ZERO
  }

  /** The register after the bits of a message: each bit goes into it, and it moves on
      (section 8 of RFC 1952). */
  function BitCrc(s: Word, bits: seq<bool>): Word
    decreases |bits|
  {
    if bits == [] then s else BitCrc(X(Add(s, Bit(bits[0]))), bits[1..])
  }

  /** The CRC of data, going on from the CRC of what was before it. */
  function Crc(crc: Word, data: seq<byte>): Word {
    Not(BitCrc(Not(crc), BytesBits(data)))
  }

  // ---- exclusive or ----

  lemma {:induction false} AddZero(a: Word)
    ensures Add(a, ZERO) == a && Add(ZERO, a) == a && Add(a, a) == ZERO
  {
  }

  lemma {:induction false} AddComm(a: Word, b: Word)
    ensures Add(a, b) == Add(b, a)
  {
  }

  lemma {:induction false} XorAssoc(a: bv32, b: bv32, c: bv32)
    ensures Xor32(Xor32(a, b), c) == Xor32(a, Xor32(b, c))
  {
  }

  lemma {:induction false} AddAssoc(a: Word, b: Word, c: Word)
    ensures Add(Add(a, b), c) == Add(a, Add(b, c))
  {
    hide Xor32;
    XorAssoc(a.bits, b.bits, c.bits);
  }

  lemma {:induction false} AddSwap(a: Word, b: Word, c: Word)
    ensures Add(Add(a, b), c) == Add(Add(a, c), b)
  {
    hide Add;
    AddAssoc(a, b, c);
    AddComm(b, c);
    AddAssoc(a, c, b);
  }

  lemma {:induction false} AddFour(a: Word, b: Word, c: Word, d: Word)
    ensures Add(Add(a, b), Add(c, d)) == Add(Add(a, c), Add(b, d))
  {
    hide Add;
    AddAssoc(Add(a, b), c, d);
    AddSwap(a, b, c);
    AddAssoc(Add(a, c), b, d);
  }

  lemma {:induction false} NotNot(a: Word)
    ensures Not(Not(a)) == a
  {
    hide Add;
    AddAssoc(a, ALL, ALL);
    AddZero(ALL);
    AddZero(a);
  }

  // ---- the register is linear ----

  lemma {:induction false} ShiftXor(a: bv32, b: bv32)
    ensures Half32(Xor32(a, b)) == Xor32(Half32(a), Half32(b))
  {
  }

  lemma {:induction false} OddXor(a: bv32, b: bv32)
    ensures Xor32(a, b) & 1 == 1 <==> (a & 1 == 1) != (b & 1 == 1)
  {
  }

  lemma {:induction false} HalfAdd(a: Word, b: Word)
    ensures Half(Add(a, b)) == Add(Half(a), Half(b)) && (Odd(Add(a, b)) <==> Odd(a) != Odd(b))
  {
    hide Xor32, Half32;
    ShiftXor(a.bits, b.bits);
    OddXor(a.bits, b.bits);
  }

  lemma {:induction false} XLinear(a: Word, b: Word)
    ensures X(Add(a, b)) == Add(X(a), X(b))
  {
    hide Add, Half, Odd;
    HalfAdd(a, b);
    AddAssoc(Half(a), Half(b), POLY);
    AddSwap(Half(a), POLY, Half(b));
    AddFour(Half(a), POLY, Half(b), POLY);
    AddZero(POLY);
    AddZero(Add(Half(a), Half(b)));
  }

  lemma {:induction false} XFacts(v: Word)
    ensures X(ZERO) == ZERO && (v != ZERO ==> X(v) != ZERO)
  {
  }

  lemma {:induction false} XNLinear(a: Word, b: Word, n: nat)
    ensures XN(Add(a, b), n) == Add(XN(a, n), XN(b, n))
    decreases n
  {
    hide X, Add;
    if n > 0 {
      XLinear(a, b);
      XNLinear(X(a), X(b), n - 1);
    }
  }

  lemma {:induction false} XNAdd(v: Word, m: nat, n: nat)
    ensures XN(v, m + n) == XN(XN(v, m), n)
    decreases m
  {
    hide X;
    if m > 0 { XNAdd(X(v), m - 1, n); }
  }

  lemma {:induction false} XNLast(v: Word, n: nat)
    requires n > 0
    ensures XN(v, n) == X(XN(v, n - 1))
  {
    hide X;
    XNAdd(v, n - 1, 1);
    assert XN(XN(v, n - 1), 1) == XN(X(XN(v, n - 1)), 0);
  }

  /** Only zero becomes zero. */
  lemma {:induction false} XNZero(v: Word, n: nat)
    ensures XN(ZERO, n) == ZERO && (v != ZERO ==> XN(v, n) != ZERO)
    decreases n
  {
    hide X;
    if n > 0 {
      XFacts(v);
      XNZero(X(v), n - 1);
    }
  }

  /** What the start leaves in the register and what the message does are independent. */
  lemma {:induction false} BitCrcLinear(s: Word, t: Word, bits: seq<bool>)
    ensures BitCrc(Add(s, t), bits) == Add(XN(s, |bits|), BitCrc(t, bits))
    decreases |bits|
  {
    hide X, Add, Bit;
    if bits != [] {
      var b := Bit(bits[0]);
      AddAssoc(s, t, b);
      XLinear(s, Add(t, b));
      BitCrcLinear(X(s), X(Add(t, b)), bits[1..]);
    }
  }

  lemma {:induction false} BitCrcConcat(s: Word, a: seq<bool>, b: seq<bool>)
    ensures BitCrc(s, a + b) == BitCrc(BitCrc(s, a), b)
    decreases |a|
  {
    hide X, Add, Bit;
    if a == [] {
      assert a + b == b;
    } else {
      assert (a + b)[1..] == a[1..] + b;
      BitCrcConcat(X(Add(s, Bit(a[0]))), a[1..], b);
    }
  }

  /** The CRC can be taken piece by piece. */
  lemma {:induction false} CrcConcat(crc: Word, a: seq<byte>, b: seq<byte>)
    ensures Crc(crc, a + b) == Crc(Crc(crc, a), b)
  {
    hide Add, BitCrc, BytesBits, Not;
    BytesBitsConcat(a, b);
    BitCrcConcat(Not(crc), BytesBits(a), BytesBits(b));
    NotNot(BitCrc(Not(crc), BytesBits(a)));
  }

  // ---- multiplication ----

  /** The sum of b x^i over the terms x^i of a, from the one at mask m on; b stands for that one. */
  function MulBits(a: Word, b: Word, m: Word): Word
    decreases m.bits
  {
    if m == ZERO then ZERO
    else HalfLess(m); Add(if Has(a, m) then b else ZERO, MulBits(a, X(b), Half(m)))
  }

  /** a(x) b(x) mod p(x) */
  function Mul(a: Word, b: Word): Word {
    MulBits(a, b, ONE)
  }

  lemma {:induction false} HalfLess(m: Word)
    requires m != ZERO
    ensures Half(m).bits < m.bits
  {
  }

  lemma {:induction false} MulAdd(a: Word, b: Word, c: Word, m: Word)
    ensures MulBits(a, Add(b, c), m) == Add(MulBits(a, b, m), MulBits(a, c, m))
    decreases m.bits
  {
    hide X, Add, Has, Half;
    AddZero(ZERO);
    if m != ZERO {
      HalfLess(m);
      XLinear(b, c);
      MulAdd(a, X(b), X(c), Half(m));
      AddFour(if Has(a, m) then b else ZERO, if Has(a, m) then c else ZERO,
              MulBits(a, X(b), Half(m)), MulBits(a, X(c), Half(m)));
    }
  }

  lemma {:induction false} MulZero(a: Word, m: Word)
    ensures MulBits(a, ZERO, m) == ZERO
    decreases m.bits
  {
    hide X, Add, Has, Half;
    if m != ZERO {
      HalfLess(m);
      XFacts(ZERO);
      MulZero(a, Half(m));
      AddZero(ZERO);
    }
  }

  lemma {:induction false} MulByX(a: Word, b: Word, m: Word)
    ensures MulBits(a, X(b), m) == X(MulBits(a, b, m))
    decreases m.bits
  {
    hide X, Add, Has, Half;
    XFacts(ZERO);
    if m != ZERO {
      HalfLess(m);
      MulByX(a, X(b), Half(m));
      XLinear(if Has(a, m) then b else ZERO, MulBits(a, X(b), Half(m)));
    }
  }

  /** One bit of a word. */
  predicate Single(m: Word) {
    m != ZERO && And(m, Below(m)) == ZERO
  }

  /** The terms of a from the one at m on. */
  function Tail(a: Word, m: Word): Word {
    Add(And(a, m), And(a, Below(m)))
  }

  lemma {:induction false} SingleHalf(m: Word)
    requires Single(m)
    ensures Half(m) == ZERO || Single(Half(m))
    ensures Half(m) == ZERO ==> Below(m) == ZERO
    ensures X(m) == Half(m) || Half(m) == ZERO
    ensures m != ZERO
  {
  }

  lemma {:induction false} SingleHas(a: Word, m: Word)
    requires Single(m)
    ensures And(a, m) == if Has(a, m) then m else ZERO
  {
  }

  lemma {:induction false} AndRaw(a: bv32, b: bv32, c: bv32)
    ensures And32(a, b ^ c) == And32(a, b) ^ And32(a, c)
  {
  }

  lemma {:induction false} AndXor(a: bv32, b: bv32, c: bv32)
    ensures And32(a, Xor32(b, c)) == Xor32(And32(a, b), And32(a, c))
  {
    hide And32;
    AndRaw(a, b, c);
  }

  lemma {:induction false} AndAdd(a: Word, b: Word, c: Word)
    ensures And(a, Add(b, c)) == Add(And(a, b), And(a, c))
  {
    hide And32, Xor32;
    AndXor(a.bits, b.bits, c.bits);
  }

  lemma {:induction false} AndZero(a: Word)
    ensures And(a, ZERO) == ZERO && And(a, ALL) == a
  {
  }

  lemma {:induction false} HalfBelow(m: Word)
    requires Single(m) && Half(m) != ZERO
    ensures Add(Half(m), Below(Half(m))) == Below(m)
  {
  }

  lemma {:induction false} TailHalf(a: Word, m: Word)
    requires Single(m) && Half(m) != ZERO
    ensures Tail(a, Half(m)) == And(a, Below(m))
  {
    hide Add, And, Below, Half, Single;
    HalfBelow(m);
    AndAdd(a, Half(m), Below(Half(m)));
  }

  lemma {:induction false} MulSingle(a: Word, m: Word)
    requires Single(m)
    ensures MulBits(a, m, m) == Tail(a, m)
    decreases m.bits
  {
    hide X, Add, And, Has, Half, Single, Below;
    SingleHalf(m);
    SingleHas(a, m);
    HalfLess(m);
    if Half(m) != ZERO {
      MulSingle(a, Half(m));
      TailHalf(a, m);
    } else {
      AndZero(a);
    }
  }

  lemma {:induction false} TailAll(a: Word)
    ensures Tail(a, ONE) == a && Single(ONE)
  {
    hide And;
    AndAdd(a, ONE, Below(ONE));
    AndZero(a);
    assert Add(ONE, Below(ONE)) == ALL;
    assert Single(ONE) by { OneSingle(); }
  }

  lemma {:induction false} OneSingle()
    ensures Single(ONE)
  {
  }

  lemma {:induction false} MulOne(a: Word)
    ensures Mul(a, ONE) == a
  {
    hide Tail, Single, MulBits;
    TailAll(a);
    MulSingle(a, ONE);
  }

  /** A product goes through the second factor of another. */
  lemma {:induction false} MulThrough(c: Word, a: Word, b: Word, m: Word)
    ensures MulBits(c, MulBits(a, b, m), ONE) == MulBits(a, MulBits(c, b, ONE), m)
    decreases m.bits
  {
    hide X, Add, Has, Half;
    MulZero(c, ONE);
    if m != ZERO {
      HalfLess(m);
      MulThrough(c, a, X(b), Half(m));
      MulByX(c, b, ONE);
      MulAdd(c, if Has(a, m) then b else ZERO, MulBits(a, X(b), Half(m)), ONE);
    }
  }

  lemma {:induction false} MulComm(a: Word, b: Word)
    ensures Mul(a, b) == Mul(b, a)
  {
    hide MulBits;
    MulOne(a);
    MulOne(b);
    MulThrough(b, a, ONE, ONE);
  }

  lemma {:induction false} MulSum(a: Word, b: Word, c: Word)
    ensures Mul(a, Add(b, c)) == Add(Mul(a, b), Mul(a, c)) && Mul(Add(b, c), a) == Add(Mul(b, a), Mul(c, a))
    ensures Mul(a, ZERO) == ZERO && Mul(ZERO, a) == ZERO
  {
    hide MulBits, Add;
    MulAdd(a, b, c, ONE);
    MulZero(a, ONE);
    MulComm(a, ZERO);
    MulComm(a, b);
    MulComm(a, c);
    MulComm(a, Add(b, c));
  }

  lemma {:induction false} MulX(a: Word, b: Word)
    ensures Mul(a, X(b)) == X(Mul(a, b)) && Mul(X(b), a) == X(Mul(b, a))
  {
    hide MulBits, X;
    MulByX(a, b, ONE);
    MulComm(a, X(b));
    MulComm(a, b);
  }

  lemma {:induction false} MulAssoc(a: Word, b: Word, c: Word)
    ensures Mul(Mul(a, b), c) == Mul(a, Mul(b, c))
  {
    hide MulBits;
    MulComm(Mul(a, b), c);
    MulComm(b, c);
    MulThrough(c, a, b, ONE);
  }

  /** Multiplying by a power of x is moving the register on. */
  lemma {:induction false} MulPower(n: nat, b: Word)
    ensures Mul(XN(ONE, n), b) == XN(b, n)
    decreases n
  {
    hide X, Mul;
    MulComm(XN(ONE, n), b);
    if n == 0 {
      MulOne(b);
    } else {
      XNLast(ONE, n);
      XNLast(b, n);
      MulX(b, XN(ONE, n - 1));
      MulPower(n - 1, b);
      MulComm(XN(ONE, n - 1), b);
    }
  }

  lemma {:induction false} PowerAdd(m: nat, n: nat)
    ensures Mul(XN(ONE, m), XN(ONE, n)) == XN(ONE, m + n)
  {
    hide Mul, XN;
    MulPower(m, XN(ONE, n));
    XNAdd(ONE, n, m);
  }

  // ---- division of polynomials ----

  /** A polynomial of any degree, lowest power first, as a word: its remainder modulo p(x). */
  function Residue(f: seq<bool>): Word {
    if f == [] then ZERO else Add(if f[0] then ONE else ZERO, X(Residue(f[1..])))
  }

  predicate Term(f: seq<bool>, i: nat) {
    i < |f| && f[i]
  }

  /** The same polynomial. */
  ghost predicate Same(f: seq<bool>, g: seq<bool>) {
    forall i: nat :: Term(f, i) == Term(g, i)
  }

  function PolyAdd(f: seq<bool>, g: seq<bool>): (h: seq<bool>)
    ensures |h| == if |f| > |g| then |f| else |g|
  {
    seq(if |f| > |g| then |f| else |g|, i requires i >= 0 => Term(f, i) != Term(g, i))
  }

  /** The product of polynomials, term by term. */
  function PolyMul(f: seq<bool>, g: seq<bool>): seq<bool> {
    if f == [] then [] else PolyAdd(if f[0] then g else [], [false] + PolyMul(f[1..], g))
  }

  /** The n terms of a word from the one at m on. */
  function Terms(v: Word, m: Word, n: nat): (f: seq<bool>)
    ensures |f| == n
    decreases n
  {
    if n == 0 then [] else [Has(v, m)] + Terms(v, Half(m), n - 1)
  }

  /** A word as a polynomial. */
  function Poly(v: Word): (f: seq<bool>)
    ensures |f| == 32
  {
    Terms(v, ONE, 32)
  }

  /** p(x), all 33 terms of it. */
  function P(): (f: seq<bool>)
    ensures |f| == 33
  {
    Poly(POLY) + [true]
  }

  function Reversed(bits: seq<bool>): (f: seq<bool>)
    ensures |f| == |bits|
  {
    if bits == [] then [] else Reversed(bits[1..]) + [bits[0]]
  }

  /** A message as the polynomial of its bits, the first the highest, times x^32. */
  function Message(bits: seq<bool>): seq<bool> {
    Zeros(32) + Reversed(bits)
  }

  lemma {:induction false} PolyAddTail(f: seq<bool>, g: seq<bool>)
    requires f != [] && g != []
    ensures PolyAdd(f, g)[1..] == PolyAdd(f[1..], g[1..]) && PolyAdd(f, g)[0] == (f[0] != g[0])
  {
    forall i: nat | i < |PolyAdd(f, g)| - 1
      ensures PolyAdd(f, g)[1..][i] == PolyAdd(f[1..], g[1..])[i]
    {
      assert Term(f, i + 1) == Term(f[1..], i) && Term(g, i + 1) == Term(g[1..], i);
    }
  }

  lemma {:induction false} PolyAddNone(f: seq<bool>)
    ensures PolyAdd(f, []) == f == PolyAdd([], f)
  {
  }

  lemma {:induction false} ResidueAdd(f: seq<bool>, g: seq<bool>)
    ensures Residue(PolyAdd(f, g)) == Add(Residue(f), Residue(g))
    decreases |f| + |g|
  {
    hide X, Add, PolyAdd;
    AddZero(Residue(f));
    AddZero(Residue(g));
    if f == [] {
      PolyAddNone(g);
    } else if g == [] {
      PolyAddNone(f);
    } else {
      PolyAddTail(f, g);
      ResidueAdd(f[1..], g[1..]);
      XLinear(Residue(f[1..]), Residue(g[1..]));
      AddFour(if f[0] then ONE else ZERO, if g[0] then ONE else ZERO, X(Residue(f[1..])), X(Residue(g[1..])));
      AddZero(ONE);
      AddZero(ZERO);
    }
  }

  lemma {:induction false} ResidueShift(f: seq<bool>)
    ensures Residue([false] + f) == X(Residue(f))
  {
    hide X, Add;
    assert ([false] + f)[1..] == f;
    AddZero(X(Residue(f)));
  }

  /** Multiplication of words is multiplication of polynomials modulo p(x). */
  lemma {:induction false} MulIsPolyMul(f: seq<bool>, g: seq<bool>)
    ensures Residue(PolyMul(f, g)) == Mul(Residue(f), Residue(g))
    decreases |f|
  {
    hide X, Mul, Add, PolyAdd;
    var a := Residue(g);
    if f == [] {
      MulSum(a, ZERO, ZERO);
    } else {
      MulIsPolyMul(f[1..], g);
      ResidueAdd(if f[0] then g else [], [false] + PolyMul(f[1..], g));
      ResidueShift(PolyMul(f[1..], g));
      MulX(a, Residue(f[1..]));
      MulSum(a, if f[0] then ONE else ZERO, X(Residue(f[1..])));
      MulOne(a);
      MulComm(a, ONE);
    }
  }

  function HalfN(m: Word, n: nat): Word
    decreases n
  {
    if n == 0 then m else HalfN(Half(m), n - 1)
  }

  lemma {:induction false} HalfNAdd(v: Word, m: nat, n: nat)
    ensures HalfN(v, m + n) == HalfN(HalfN(v, m), n)
    decreases m
  {
    hide Half;
    if m > 0 { HalfNAdd(Half(v), m - 1, n); }
  }

  lemma {:induction false} TermsFrom(v: Word, m: Word, n: nat)
    requires HalfN(m, n) == ZERO
    ensures Residue(Terms(v, m, n)) == MulBits(v, ONE, m)
    decreases n
  {
    hide X, Add, Has, Half;
    if n > 0 {
      TermsFrom(v, Half(m), n - 1);
      assert Terms(v, m, n)[1..] == Terms(v, Half(m), n - 1);
      if m == ZERO {
        NoTerm(v);
      } else {
        HalfLess(m);
      }
      MulByX(v, ONE, Half(m));
    }
  }

  lemma {:induction false} NoTerm(v: Word)
    ensures !Has(v, ZERO) && Half(ZERO) == ZERO && Add(ZERO, ZERO) == ZERO && X(ZERO) == ZERO
  {
  }

  // ---- eight steps at a time ----

  function X2(v: Word): Word {
    X(X(v))
  }

  function X4(v: Word): Word {
    X2(X2(v))
  }

  function X8(v: Word): Word {
    X4(X4(v))
  }

  function Half2(v: Word): Word {
    Half(Half(v))
  }

  function Half4(v: Word): Word {
    Half2(Half2(v))
  }

  function Half8(v: Word): Word {
    Half4(Half4(v))
  }

  lemma {:induction false} XNEight(v: Word)
    ensures XN(v, 2) == X2(v) && XN(v, 4) == X4(v) && XN(v, 8) == X8(v)
  {
    hide X;
    XNAdd(v, 2, 2);
    XNAdd(v, 4, 4);
    XNAdd(X4(v), 2, 2);
    assert forall w :: XN(w, 2) == X2(w) by {
      forall w
        ensures XN(w, 2) == X2(w)
      {
        assert XN(w, 2) == XN(X(w), 1) == XN(X(X(w)), 0);
      }
    }
  }

  lemma {:induction false} HalfNEight(v: Word)
    ensures HalfN(v, 2) == Half2(v) && HalfN(v, 4) == Half4(v) && HalfN(v, 8) == Half8(v)
  {
    hide Half;
    HalfNAdd(v, 2, 2);
    HalfNAdd(v, 4, 4);
    HalfNAdd(Half4(v), 2, 2);
    assert forall w :: HalfN(w, 2) == Half2(w) by {
      forall w
        ensures HalfN(w, 2) == Half2(w)
      {
        assert HalfN(w, 2) == HalfN(Half(w), 1) == HalfN(Half(Half(w)), 0);
      }
    }
  }

  /** x^32 is the other terms of p(x). */
  lemma {:induction false} PowerThirtyTwo()
    ensures XN(ONE, 32) == POLY && XN(Word(1), 1) == POLY && XN(ONE, 24) == Word(0x80)
  {
    hide X8, XN;
    XNAdd(ONE, 8, 16);
    XNAdd(ONE, 24, 8);
    XNAdd(X8(ONE), 8, 8);
    XNEight(ONE);
    XNEight(X8(ONE));
    XNEight(X8(X8(ONE)));
    XNEight(Word(0x80));
    PowerSteps();
  }

  lemma {:induction false} PowerSteps()
    ensures X8(ONE) == Word(0x800000) && X8(Word(0x800000)) == Word(0x8000)
    ensures X8(Word(0x8000)) == Word(0x80) && X8(Word(0x80)) == POLY
    ensures XN(Word(1), 1) == POLY
  {
    assert XN(Word(1), 1) == XN(X(Word(1)), 0);
  }

  lemma {:induction false} HalfThirtyTwo()
    ensures HalfN(ONE, 32) == ZERO
  {
    hide Half8, HalfN;
    HalfNAdd(ONE, 8, 24);
    HalfNAdd(Half8(ONE), 8, 16);
    HalfNAdd(Half8(Half8(ONE)), 8, 8);
    HalfNEight(ONE);
    HalfNEight(Half8(ONE));
    HalfNEight(Half8(Half8(ONE)));
    HalfNEight(Half8(Half8(Half8(ONE))));
    HalfSteps();
  }

  lemma {:induction false} HalfSteps()
    ensures Half8(ONE) == Word(0x800000) && Half8(Word(0x800000)) == Word(0x8000)
    ensures Half8(Word(0x8000)) == Word(0x80) && Half8(Word(0x80)) == ZERO
  {
  }

  /** The polynomial of a word is its own remainder. */
  lemma {:induction false} ResiduePoly(v: Word)
    ensures Residue(Poly(v)) == v
  {
    hide MulBits, Terms, Residue, HalfN;
    HalfThirtyTwo();
    TermsFrom(v, ONE, 32);
    MulOne(v);
  }

  lemma {:induction false} ResidueConcat(f: seq<bool>, g: seq<bool>)
    ensures Residue(f + g) == Add(Residue(f), XN(Residue(g), |f|))
    decreases |f|
  {
    hide X, Add;
    if f == [] {
      assert f + g == g;
      AddZero(Residue(g));
    } else {
      assert (f + g)[1..] == f[1..] + g;
      ResidueConcat(f[1..], g);
      XLinear(Residue(f[1..]), XN(Residue(g), |f| - 1));
      XNLast(Residue(g), |f|);
      AddAssoc(if f[0] then ONE else ZERO, X(Residue(f[1..])), XN(Residue(g), |f|));
    }
  }

  /** p(x) itself leaves nothing. */
  lemma {:induction false} PolyIsZero()
    ensures Residue(P()) == ZERO
  {
    hide Poly, XN, X, Add;
    ResidueConcat(Poly(POLY), [true]);
    ResiduePoly(POLY);
    PowerThirtyTwo();
    ResidueOne();
    AddZero(POLY);
  }

  lemma {:induction false} ResidueOne()
    ensures Residue([true]) == ONE
  {
    NoTerm(ONE);
    AddZero(ONE);
  }

  // ---- the register divides ----

  lemma {:induction false} HalfNZero(n: nat)
    ensures HalfN(ZERO, n) == ZERO
    decreases n
  {
    hide Half;
    NoTerm(ZERO);
    if n > 0 { HalfNZero(n - 1); }
  }

  lemma {:induction false} HalfThirtyOne()
    ensures HalfN(ONE, 31) == Word(1)
  {
    hide Half8, Half4, Half2, HalfN;
    HalfNAdd(ONE, 8, 23);
    HalfNAdd(Half8(ONE), 8, 15);
    HalfNAdd(Half8(Half8(ONE)), 8, 7);
    HalfNAdd(Word(0x80), 4, 3);
    HalfNAdd(Word(8), 2, 1);
    HalfNEight(ONE);
    HalfNEight(Half8(ONE));
    HalfNEight(Half8(Half8(ONE)));
    HalfNEight(Word(0x80));
    HalfNEight(Word(8));
    HalfSteps();
    HalfLowSteps();
  }

  lemma {:induction false} HalfLowSteps()
    ensures Half4(Word(0x80)) == Word(8) && Half2(Word(8)) == Word(2) && HalfN(Word(2), 1) == Word(1)
  {
    assert HalfN(Word(2), 1) == HalfN(Half(Word(2)), 0);
  }

  /** The masks of the 32 terms. */
  lemma {:induction false} MaskSingle(i: nat)
    requires i < 32
    ensures Single(HalfN(ONE, i))
    ensures i > 0 ==> HalfN(ONE, i) == Half(HalfN(ONE, i - 1)) && Half(HalfN(ONE, i - 1)) != ZERO
    decreases i
  {
    hide Half, Single;
    if i == 0 {
      OneSingle();
    } else {
      MaskSingle(i - 1);
      HalfNAdd(ONE, i - 1, 1);
      var m := HalfN(ONE, i - 1);
      assert HalfN(m, 1) == HalfN(Half(m), 0);
      HalfNAdd(ONE, i, 31 - i);
      HalfNZero(31 - i);
      HalfThirtyOne();
      SingleHalf(m);
    }
  }

  lemma {:induction false} TermAt(v: Word, m: Word, n: nat, i: nat)
    requires i < n
    ensures Terms(v, m, n)[i] == Has(v, HalfN(m, i))
    decreases n
  {
    hide Half, Has;
    if i > 0 { TermAt(v, Half(m), n - 1, i - 1); }
  }

  lemma {:induction false} HasAdd(a: Word, b: Word, m: Word)
    requires Single(m)
    ensures Has(Add(a, b), m) <==> Has(a, m) != Has(b, m)
  {
    hide And, Add, Below;
    SingleHas(a, m);
    SingleHas(b, m);
    AndAdd(m, a, b);
    AndComm(Add(a, b), m);
    AndComm(a, m);
    AndComm(b, m);
    AddZero(m);
    AddZero(ZERO);
  }

  lemma {:induction false} AndComm(a: Word, b: Word)
    ensures And(a, b) == And(b, a)
  {
  }

  lemma {:induction false} HasHalf(v: Word, m: Word)
    requires Single(m) && Half(m) != ZERO
    ensures Has(Half(v), Half(m)) <==> Has(v, m)
  {
  }

  lemma {:induction false} HasEnds(v: Word)
    ensures !Has(Half(v), ONE) && (Has(v, Word(1)) <==> Odd(v))
  {
  }

  /** Multiplication by x moves every term up by one, and takes p(x) off when the term x^31
      has left the word. */
  lemma {:induction false} XTerms(v: Word, i: nat)
    ensures (Term(Poly(X(v)), i) != (Odd(v) && Term(P(), i))) == (i > 0 && Term(Poly(v), i - 1))
  {
    hide Terms, Half, Has, Add, Odd, Single, HalfN, X;
    if i < 32 {
      TermAt(X(v), ONE, 32, i);
      TermAt(POLY, ONE, 32, i);
      XHas(v, i);
      if i > 0 { TermAt(v, ONE, 32, i - 1); }
    } else if i == 32 {
      HalfThirtyOne();
      HasEnds(v);
      TermAt(v, ONE, 32, 31);
    }
  }

  lemma {:induction false} XHas(v: Word, i: nat)
    requires i < 32
    ensures (Has(X(v), HalfN(ONE, i)) != (Odd(v) && Has(POLY, HalfN(ONE, i)))) == (i > 0 && Has(v, HalfN(ONE, i - 1)))
  {
    hide Half, Has, Add, Odd, Single, HalfN;
    var m := HalfN(ONE, i);
    MaskSingle(i);
    HasAdd(Half(v), POLY, m);
    if i > 0 {
      MaskSingle(i - 1);
      HasHalf(v, HalfN(ONE, i - 1));
    } else {
      HalfNone(ONE);
      HasEnds(v);
    }
  }

  lemma {:induction false} HalfNone(m: Word)
    ensures HalfN(m, 0) == m
  {
  }

  /** Long division by p(x): what is carried out of the register is the quotient. */
  function Quotient(f: seq<bool>): seq<bool> {
    if f == [] then [] else [Odd(Residue(f[1..]))] + Quotient(f[1..])
  }

  lemma {:induction false} AddTerm(f: seq<bool>, g: seq<bool>, i: nat)
    ensures Term(PolyAdd(f, g), i) <==> Term(f, i) != Term(g, i)
  {
  }

  lemma {:induction false} PolyOne(i: nat)
    ensures Term(Poly(ONE), i) <==> i == 0
    ensures !Term(Poly(ZERO), i)
  {
    hide Half, Has, HalfN, Single;
    if i < 32 {
      TermAt(ONE, ONE, 32, i);
      TermAt(ZERO, ONE, 32, i);
      MaskSingle(i);
      OnlyTop(HalfN(ONE, i));
      HalfNone(ONE);
      if i > 0 {
        assert HalfN(ONE, i) == Half(HalfN(ONE, i - 1));
        NotTop(HalfN(ONE, i - 1));
      }
    }
  }

  lemma {:induction false} OnlyTop(m: Word)
    requires Single(m)
    ensures (Has(ONE, m) <==> m == ONE) && !Has(ZERO, m)
  {
  }

  lemma {:induction false} NotTop(m: Word)
    ensures Half(m) != ONE
  {
  }

  lemma {:induction false} PolyAddWords(a: Word, b: Word, i: nat)
    ensures Term(Poly(Add(a, b)), i) <==> Term(Poly(a), i) != Term(Poly(b), i)
  {
    hide Half, Has, HalfN, Add, Single;
    if i < 32 {
      TermAt(a, ONE, 32, i);
      TermAt(b, ONE, 32, i);
      TermAt(Add(a, b), ONE, 32, i);
      MaskSingle(i);
      HasAdd(a, b, HalfN(ONE, i));
    }
  }

  lemma {:induction false} DivideTerm(f: seq<bool>, i: nat)
    ensures Term(f, i) <==> Term(PolyMul(Quotient(f), P()), i) != Term(Poly(Residue(f)), i)
    decreases |f|
  {
    hide Odd, Add, X, Poly, P, PolyAdd;
    if f == [] {
      PolyOne(i);
    } else {
      var q := Quotient(f);
      var r := Residue(f[1..]);
      assert q[1..] == Quotient(f[1..]);
      var d := [false] + PolyMul(q[1..], P());
      AddTerm(if q[0] then P() else [], d, i);
      assert Term(d, i) == (i > 0 && Term(PolyMul(q[1..], P()), i - 1));
      PolyAddWords(if f[0] then ONE else ZERO, X(r), i);
      PolyOne(i);
      XTerms(r, i);
      if i > 0 {
        DivideTerm(f[1..], i - 1);
        assert Term(f, i) == Term(f[1..], i - 1);
      }
    }
  }

  lemma {:induction false} ResidueSame(f: seq<bool>, g: seq<bool>)
    requires Same(f, g)
    ensures Residue(f) == Residue(g)
    decreases |f| + |g|
  {
    hide Add, X;
    var a, b := if f == [] then [] else f[1..], if g == [] then [] else g[1..];
    if f != [] || g != [] {
      forall i: nat
        ensures Term(a, i) == Term(b, i)
      {
        assert Term(f, i + 1) == Term(g, i + 1);
        assert Term(a, i) == Term(f, i + 1) && Term(b, i) == Term(g, i + 1);
      }
      ResidueSame(a, b);
      assert Term(f, 0) == Term(g, 0);
      NoTerm(ONE);
      XFacts(ONE);
      assert Residue(a) == Residue(b);
    }
  }

  /** The word of a polynomial is the remainder of its division by p(x), and the only one. */
  lemma {:induction false} RemainderIs(f: seq<bool>, w: Word)
    ensures Residue(f) == w <==> exists q :: Same(f, PolyAdd(PolyMul(q, P()), Poly(w)))
  {
    hide Poly, P, PolyAdd, PolyMul, Residue, Quotient, Mul, Add;
    if Residue(f) == w {
      var q := Quotient(f);
      forall i: nat
        ensures Term(f, i) == Term(PolyAdd(PolyMul(q, P()), Poly(w)), i)
      {
        DivideTerm(f, i);
        AddTerm(PolyMul(q, P()), Poly(w), i);
      }
      assert Same(f, PolyAdd(PolyMul(q, P()), Poly(w)));
    }
    forall q | Same(f, PolyAdd(PolyMul(q, P()), Poly(w)))
      ensures Residue(f) == w
    {
      ResidueSame(f, PolyAdd(PolyMul(q, P()), Poly(w)));
      ResidueAdd(PolyMul(q, P()), Poly(w));
      MulIsPolyMul(q, P());
      PolyIsZero();
      ResiduePoly(w);
      MulSum(Residue(q), ZERO, ZERO);
      AddZero(w);
    }
  }

  lemma {:induction false} ResidueZeros(n: nat)
    ensures Residue(Zeros(n)) == ZERO
    decreases n
  {
    hide Add, X;
    if n > 0 {
      assert Zeros(n)[1..] == Zeros(n - 1);
      ResidueZeros(n - 1);
      XFacts(ZERO);
      AddZero(ZERO);
    }
  }

  lemma {:induction false} BitIs(b: bool)
    ensures X(Bit(b)) == XN(Residue([b]), 32)
  {
    hide X, XN, Add;
    PowerThirtyTwo();
    ResidueOne();
    if b {
      assert XN(Word(1), 1) == X(Word(1)) by { XNOne(Word(1)); }
    } else {
      XFacts(ZERO);
      XNZero(ZERO, 32);
      ResidueZeros(1);
      assert Zeros(1) == [false];
    }
  }

  lemma {:induction false} XNOne(v: Word)
    ensures XN(v, 1) == X(v)
  {
    hide X;
    assert XN(v, 1) == XN(X(v), 0);
  }

  lemma {:induction false} RegisterResidue(bits: seq<bool>)
    ensures BitCrc(ZERO, bits) == XN(Residue(Reversed(bits)), 32)
    decreases |bits|
  {
    hide X, XN, Add, Bit, Residue;
    if bits == [] {
      ResidueZeros(0);
      assert Zeros(0) == [];
      XNZero(ZERO, 32);
    } else {
      var rest, b, n := bits[1..], bits[0], |bits| - 1;
      AddZero(Bit(b));
      AddZero(X(Bit(b)));
      BitCrcLinear(X(Bit(b)), ZERO, rest);
      RegisterResidue(rest);
      ResidueConcat(Reversed(rest), [b]);
      XNLinear(Residue(Reversed(rest)), XN(Residue([b]), n), 32);
      XNAdd(Residue([b]), n, 32);
      XNAdd(Residue([b]), 32, n);
      BitIs(b);
      AddComm(XN(Residue(Reversed(rest)), 32), XN(X(Bit(b)), n));
    }
  }

  /** What the register divides: the message, and its start beside the first bits. */
  function Dividend(s: Word, bits: seq<bool>): seq<bool> {
    PolyAdd(Message(bits), Zeros(|bits|) + Poly(s))
  }

  /** Feeding a message into the register bit by bit divides it by p(x): the register then
      holds the remainder. */
  lemma {:induction false} RegisterDivides(s: Word, bits: seq<bool>, w: Word)
    ensures BitCrc(s, bits) == w <==> exists q :: Same(Dividend(s, bits), PolyAdd(PolyMul(q, P()), Poly(w)))
  {
    hide X, XN, Add, Residue, PolyAdd, Poly, PolyMul, Zeros, Reversed, P, BitCrc, Same;
    RemainderIs(Dividend(s, bits), w);
    ResidueAdd(Message(bits), Zeros(|bits|) + Poly(s));
    ResidueConcat(Zeros(32), Reversed(bits));
    ResidueConcat(Zeros(|bits|), Poly(s));
    ResidueZeros(32);
    ResidueZeros(|bits|);
    ResiduePoly(s);
    RegisterResidue(bits);
    BitCrcLinear(s, ZERO, bits);
    AddZero(s);
    AddZero(XN(s, |bits|));
    AddZero(BitCrc(ZERO, bits));
    AddComm(XN(s, |bits|), BitCrc(ZERO, bits));
  }

  // ---- bytes ----

  /** The value of up to eight bits, the first the least significant. */
  function Pack(f: seq<bool>): Word {
    if f == [] then ZERO else Add(Bit(f[0]), Double(Pack(f[1..])))
  }

  /** The n low bits of a word, least significant first. */
  function Unpack(v: Word, n: nat): (f: seq<bool>)
    ensures |f| == n
    decreases n
  {
    if n == 0 then [] else [Odd(v)] + Unpack(Half(v), n - 1)
  }

  /** A byte as a word. */
  function Value(b: byte): Word {
    Pack(ToBits(b, 8))
  }

  /** The low byte of a word, as an index into a table. */
  function Index(v: Word): (i: nat)
    ensures i < 256
  {
    assert Pow2(8) == 256;
    FromBits(Unpack(v, 8))
  }

  function Low8(v: Word): Word {
    And(v, Word(0xff))
  }

  function Up32(a: bv32): bv32 {
    a << 8
  }

  function Up8(v: Word): Word {
    Word(Up32(v.bits))
  }

  function Down8(v: Word): Word {
    Word(v.bits >> 8)
  }

  /** (1 << n) - 1, up to eight bits */
  function Ones(n: nat): bv32 {
    if n == 0 then 0
    else if n == 1 then 1
    else if n == 2 then 3
    else if n == 3 then 7
    else if n == 4 then 0xf
    else if n == 5 then 0x1f
    else if n == 6 then 0x3f
    else if n == 7 then 0x7f
    else 0xff
  }

  predicate Fits(v: Word, n: nat) {
    v.bits <= Ones(n)
  }

  lemma {:induction false} PackStep(b: bool, u: Word, n: nat)
    requires n < 8 && Fits(u, n)
    ensures Fits(Add(Bit(b), Double(u)), n + 1)
    ensures X(Double(u)) == u && (Add(Bit(b), Double(u)) == ZERO ==> !b && u == ZERO)
  {
  }

  lemma {:induction false} PackSmall(f: seq<bool>)
    requires |f| <= 8
    ensures Fits(Pack(f), |f|)
    decreases |f|
  {
    hide Add, Double, Bit, Fits;
    if f == [] {
      assert Fits(ZERO, 0) by { FitsZero(); }
    } else {
      PackSmall(f[1..]);
      PackStep(f[0], Pack(f[1..]), |f| - 1);
    }
  }

  lemma {:induction false} FitsZero()
    ensures Fits(ZERO, 0)
  {
  }

  lemma {:induction false} OnesNone()
    ensures Ones(0) == 0 && Ones(8) == 0xff
  {
  }

  lemma {:induction false} PackZero(f: seq<bool>)
    requires |f| <= 8 && Pack(f) == ZERO
    ensures FromBits(f) == 0
    decreases |f|
  {
    hide Add, Double, Bit, Fits;
    if f != [] {
      PackSmall(f[1..]);
      PackStep(f[0], Pack(f[1..]), |f| - 1);
      PackZero(f[1..]);
    }
  }

  lemma {:induction false} UnpackStep(v: Word, n: nat)
    requires n < 8
    ensures Add(Bit(Odd(v)), Double(And(Half(v), Word(Ones(n))))) == And(v, Word(Ones(n + 1)))
  {
  }

  lemma {:induction false} PackUnpack(v: Word, n: nat)
    requires n <= 8
    ensures Pack(Unpack(v, n)) == And(v, Word(Ones(n)))
    decreases n
  {
    hide Add, Double, Bit, Ones, And, Half, Odd;
    if n == 0 {
      OnesNone();
      AndZero(v);
    } else {
      PackUnpack(Half(v), n - 1);
      assert Unpack(v, n)[1..] == Unpack(Half(v), n - 1);
      UnpackStep(v, n - 1);
    }
  }

  lemma {:induction false} ValueIndex(v: Word)
    ensures Value(Index(v)) == Low8(v)
  {
    hide And, Pack, Unpack, ToBits, FromBits;
    ToFromBits(Unpack(v, 8));
    PackUnpack(v, 8);
    OnesNone();
  }

  lemma {:induction false} ValueSmall(b: byte)
    ensures Value(b).bits <= 0xff && (Value(b) == ZERO ==> b == 0)
  {
    hide Pack, ToBits, FromBits, Ones;
    PackSmall(ToBits(b, 8));
    OnesNone();
    FromToBits(b, 8);
    assert Low(b, 8) == b by {
      assert Pow2(8) == 256;
      LowSmall(b, 8);
    }
    if Value(b) == ZERO { PackZero(ToBits(b, 8)); }
  }

  lemma {:induction false} PackCrc(f: seq<bool>)
    requires |f| <= 8
    ensures BitCrc(ZERO, f) == XN(Pack(f), |f|)
    decreases |f|
  {
    hide X, Add, Double, Bit, Fits;
    if f != [] {
      var b, u := Bit(f[0]), Pack(f[1..]);
      PackSmall(f[1..]);
      PackStep(f[0], u, |f| - 1);
      AddZero(b);
      AddZero(X(b));
      XLinear(b, Double(u));
      BitCrcLinear(X(b), ZERO, f[1..]);
      PackCrc(f[1..]);
      XNLinear(X(b), u, |f| - 1);
    }
  }

  /** The register takes in a byte. */
  lemma {:induction false} ByteStep(s: Word, b: byte)
    ensures BitCrc(s, ToBits(b, 8)) == XN(Add(s, Value(b)), 8)
  {
    hide Add, Pack, ToBits, BitCrc, XN;
    BitCrcLinear(s, ZERO, ToBits(b, 8));
    AddZero(s);
    PackCrc(ToBits(b, 8));
    XNLinear(s, Value(b), 8);
  }

  /** The n high bits are zero. */
  predicate Room(v: Word, n: nat) {
    v.bits <= if n == 0 then 0xffffffff
      else if n == 1 then 0x7fffffff
      else if n == 2 then 0x3fffffff
      else if n == 3 then 0x1fffffff
      else if n == 4 then 0xfffffff
      else if n == 5 then 0x7ffffff
      else if n == 6 then 0x3ffffff
      else if n == 7 then 0x1ffffff
      else 0xffffff
  }

  function DoubleN(v: Word, n: nat): Word
    decreases n
  {
    if n == 0 then v else DoubleN(Double(v), n - 1)
  }

  lemma {:induction false} RoomStep(v: Word, n: nat)
    requires n < 8 && Room(v, n + 1)
    ensures Room(Double(v), n) && X(Double(v)) == v
  {
  }

  lemma {:induction false} DoubleUp(v: Word, n: nat)
    requires n <= 8 && Room(v, n)
    ensures XN(DoubleN(v, n), n) == v
    decreases n
  {
    hide Double, X, Room;
    if n > 0 {
      RoomStep(v, n - 1);
      DoubleUp(Double(v), n - 1);
      XNLast(DoubleN(v, n), n);
    }
  }

  function FourUp(a: bv32): bv32 {
    a << 4
  }

  lemma {:induction false} ShiftFour(a: bv32)
    ensures Double32(Double32(Double32(Double32(a)))) == FourUp(a)
  {
  }

  lemma {:induction false} ShiftEight(a: bv32)
    ensures FourUp(FourUp(a)) == Up32(a)
  {
  }

  lemma {:induction false} DoubleFour(v: Word)
    ensures DoubleN(v, 4) == Word(FourUp(v.bits))
  {
    hide Double32, FourUp;
    assert DoubleN(v, 4) == DoubleN(Double(v), 3) == DoubleN(Double(Double(v)), 2);
    assert DoubleN(Double(Double(v)), 2) == Double(Double(Double(Double(v))));
    ShiftFour(v.bits);
  }

  lemma {:induction false} DoubleNAdd(v: Word, m: nat, n: nat)
    ensures DoubleN(v, m + n) == DoubleN(DoubleN(v, m), n)
    decreases m
  {
    hide Double;
    if m > 0 { DoubleNAdd(Double(v), m - 1, n); }
  }

  lemma {:induction false} DoubleEight(v: Word)
    ensures DoubleN(v, 8) == Up8(v)
  {
    hide DoubleN, FourUp, Up32;
    DoubleNAdd(v, 4, 4);
    DoubleFour(v);
    DoubleFour(Word(FourUp(v.bits)));
    ShiftEight(v.bits);
  }

  /** No term is lost when eight of them are zero. */
  lemma {:induction false} UpDown(v: Word)
    requires v.bits <= 0xffffff
    ensures XN(Up8(v), 8) == v
  {
    hide XN, Up8;
    DoubleEight(v);
    DoubleUp(v, 8);
  }

  lemma {:induction false} UpSmall(v: Word)
    ensures v.bits <= 0xff ==> Up8(v).bits <= 0xffff
    ensures v.bits <= 0xffff ==> Up8(v).bits <= 0xffffff
  {
  }

  lemma {:induction false} Join(v: Word)
    ensures v == Add(Low8(v), Up8(Down8(v))) && Down8(v).bits <= 0xffffff
  {
  }

  /** Eight steps, and what the low byte does in more. */
  lemma {:induction false} Split(v: Word, n: nat)
    ensures XN(v, n + 8) == Add(XN(Low8(v), n + 8), XN(Down8(v), n))
  {
    hide Add, XN, Low8, Up8, Down8;
    Join(v);
    XNLinear(Low8(v), Up8(Down8(v)), n + 8);
    XNAdd(Up8(Down8(v)), 8, n);
    UpDown(Down8(v));
  }

  lemma {:induction false} DownByte(v: Word, b: byte)
    ensures Down8(Add(v, Value(b))) == Down8(v)
  {
    hide Value;
    ValueSmall(b);
    DownSmall(v, Value(b));
  }

  lemma {:induction false} DownSmall(v: Word, u: Word)
    requires u.bits <= 0xff
    ensures Down8(Add(v, u)) == Down8(v)
  {
  }

  /** Four bytes of memory as a word of a little-endian machine. */
  function Load(s: seq<byte>): Word
    requires |s| == 4
  {
    Add(Value(s[0]), Up8(Add(Value(s[1]), Up8(Add(Value(s[2]), Up8(Value(s[3])))))))
  }

  lemma {:induction false} AddSmall(a: Word, b: Word)
    ensures a.bits <= 0xff && b.bits <= 0xffff ==> Add(a, b).bits <= 0xffff
    ensures a.bits <= 0xff && b.bits <= 0xffffff ==> Add(a, b).bits <= 0xffffff
  {
  }

  lemma {:induction false} TakeByte(s: Word, v: Word, u: Word, n: nat)
    requires u.bits <= 0xffffff
    ensures XN(Add(s, Add(v, Up8(u))), n + 8) == XN(Add(XN(Add(s, v), 8), u), n)
  {
    hide Add, XN, Up8;
    AddAssoc(s, v, Up8(u));
    XNAdd(Add(Add(s, v), Up8(u)), 8, n);
    XNLinear(Add(s, v), Up8(u), 8);
    UpDown(u);
  }

  lemma {:induction false} FourBytes(s: seq<byte>)
    requires |s| == 4
    ensures BytesBits(s) == ToBits(s[0], 8) + (ToBits(s[1], 8) + (ToBits(s[2], 8) + ToBits(s[3], 8)))
  {
    hide ToBits;
    assert s[1..][1..] == s[2..] && s[2..][1..] == s[3..] && s[3..][1..] == [];
    assert BytesBits(s[3..]) == ToBits(s[3], 8) + BytesBits([]);
    assert BytesBits(s[2..]) == ToBits(s[2], 8) + BytesBits(s[3..]);
    assert BytesBits(s[1..]) == ToBits(s[1], 8) + BytesBits(s[2..]);
    assert BytesBits(s) == ToBits(s[0], 8) + BytesBits(s[1..]);
  }

  /** The register takes in a word. */
  lemma {:induction false} WordStep(r: Word, s: seq<byte>)
    requires |s| == 4
    ensures BitCrc(r, BytesBits(s)) == XN(Add(r, Load(s)), 32)
  {
    hide Add, XN, Up8, Value, ToBits, BytesBits, BitCrc;
    FourBytes(s);
    var a, b, c, d := ToBits(s[0], 8), ToBits(s[1], 8), ToBits(s[2], 8), ToBits(s[3], 8);
    BitCrcConcat(r, a, b + (c + d));
    var r1 := XN(Add(r, Value(s[0])), 8);
    ByteStep(r, s[0]);
    BitCrcConcat(r1, b, c + d);
    var r2 := XN(Add(r1, Value(s[1])), 8);
    ByteStep(r1, s[1]);
    BitCrcConcat(r2, c, d);
    var r3 := XN(Add(r2, Value(s[2])), 8);
    ByteStep(r2, s[2]);
    ByteStep(r3, s[3]);
    ValueSmall(s[1]);
    ValueSmall(s[2]);
    ValueSmall(s[3]);
    var u3 := Value(s[3]);
    UpSmall(u3);
    var u2 := Add(Value(s[2]), Up8(u3));
    AddSmall(Value(s[2]), Up8(u3));
    UpSmall(u2);
    var u1 := Add(Value(s[1]), Up8(u2));
    AddSmall(Value(s[1]), Up8(u2));
    LoadStep(r, s, u1, u2, u3);
  }

  lemma {:induction false} LoadStep(r: Word, s: seq<byte>, u1: Word, u2: Word, u3: Word)
    requires |s| == 4 && u1.bits <= 0xffffff && u2.bits <= 0xffff && u3.bits <= 0xff
    requires u3 == Value(s[3]) && u2 == Add(Value(s[2]), Up8(u3)) && u1 == Add(Value(s[1]), Up8(u2))
    ensures XN(Add(r, Load(s)), 32)
         == XN(Add(XN(Add(XN(Add(XN(Add(r, Value(s[0])), 8), Value(s[1])), 8), Value(s[2])), 8), u3), 8)
  {
    hide Add, XN, Up8, Value;
    WordSmall(u2);
    WordSmall(u3);
    TakeByte(r, Value(s[0]), u1, 24);
    TakeByte(XN(Add(r, Value(s[0])), 8), Value(s[1]), u2, 16);
    TakeByte(XN(Add(XN(Add(r, Value(s[0])), 8), Value(s[1])), 8), Value(s[2]), u3, 8);
  }

  lemma {:induction false} WordSmall(v: Word)
    ensures v.bits <= 0xffff ==> v.bits <= 0xffffff
    ensures v.bits <= 0xff ==> v.bits <= 0xffffff
  {
  }

  // ---- powers of x ----

  /** The sum of c x^(2i) over the terms x^i of v, from the one at mask m on. */
  function SquareBits(v: Word, c: Word, m: Word): Word
    decreases m.bits
  {
    if m == ZERO then ZERO
    else HalfLess(m); Add(if Has(v, m) then c else ZERO, SquareBits(v, X2(c), Half(m)))
  }

  lemma {:induction false} SquareByX(v: Word, c: Word, m: Word)
    ensures SquareBits(v, X2(c), m) == X2(SquareBits(v, c, m))
    decreases m.bits
  {
    hide Half, Has, Add, X;
    XFacts(ZERO);
    if m != ZERO {
      HalfLess(m);
      SquareByX(v, X2(c), Half(m));
      XLinear(if Has(v, m) then c else ZERO, SquareBits(v, X2(c), Half(m)));
      XLinear(X(if Has(v, m) then c else ZERO), X(SquareBits(v, X2(c), Half(m))));
    }
  }

  /** A sum squared is the sum of the squares. */
  lemma {:induction false} SquareAdd(a: Word, b: Word)
    ensures Mul(Add(a, b), Add(a, b)) == Add(Mul(a, a), Mul(b, b))
  {
    hide Mul, Add;
    MulSum(Add(a, b), a, b);
    MulSum(a, a, b);
    MulSum(b, a, b);
    MulComm(a, b);
    AddComm(Mul(b, a), Mul(b, b));
    AddFour(Mul(a, a), Mul(a, b), Mul(b, b), Mul(a, b));
    AddZero(Mul(a, b));
    AddZero(Add(Mul(a, a), Mul(b, b)));
  }

  lemma {:induction false} SquareTerms(v: Word, m: Word, n: nat)
    requires HalfN(m, n) == ZERO
    ensures Mul(Residue(Terms(v, m, n)), Residue(Terms(v, m, n))) == SquareBits(v, ONE, m)
    decreases n
  {
    hide X, Add, Has, Half, Mul;
    MulSum(ZERO, ZERO, ZERO);
    if n > 0 {
      var r := Residue(Terms(v, Half(m), n - 1));
      SquareTerms(v, Half(m), n - 1);
      assert Terms(v, m, n)[1..] == Terms(v, Half(m), n - 1);
      NoTerm(v);
      SquareAdd(if Has(v, m) then ONE else ZERO, X(r));
      MulX(X(r), r);
      MulX(r, r);
      MulOne(ONE);
      SquareByX(v, ONE, Half(m));
    }
  }

  /** The square of a word. */
  lemma {:induction false} SquareIs(v: Word)
    ensures Mul(v, v) == SquareBits(v, ONE, ONE)
  {
    hide Mul, HalfN, Terms, Residue, SquareBits;
    HalfThirtyTwo();
    ResiduePoly(v);
    SquareTerms(v, ONE, 32);
  }

  function Pick(v: bv32, m: bv32, c: bv32): bv32 {
    if v & m != 0 then c else 0
  }

  function Squares0(v: bv32, rest: bv32): bv32 {
    Xor32(Pick(v, 0x80000000, 0x80000000),
    Xor32(Pick(v, 0x40000000, 0x20000000),
    Xor32(Pick(v, 0x20000000, 0x08000000),
    Xor32(Pick(v, 0x10000000, 0x02000000),
    Xor32(Pick(v, 0x08000000, 0x00800000),
    Xor32(Pick(v, 0x04000000, 0x00200000),
    Xor32(Pick(v, 0x02000000, 0x00080000),
    Xor32(Pick(v, 0x01000000, 0x00020000),
    rest))))))))
  }

  function Squares1(v: bv32, rest: bv32): bv32 {
    Xor32(Pick(v, 0x00800000, 0x00008000),
    Xor32(Pick(v, 0x00400000, 0x00002000),
    Xor32(Pick(v, 0x00200000, 0x00000800),
    Xor32(Pick(v, 0x00100000, 0x00000200),
    Xor32(Pick(v, 0x00080000, 0x00000080),
    Xor32(Pick(v, 0x00040000, 0x00000020),
    Xor32(Pick(v, 0x00020000, 0x00000008),
    Xor32(Pick(v, 0x00010000, 0x00000002),
    rest))))))))
  }

  function Squares2(v: bv32, rest: bv32): bv32 {
    Xor32(Pick(v, 0x00008000, 0xedb88320),
    Xor32(Pick(v, 0x00004000, 0x3b6e20c8),
    Xor32(Pick(v, 0x00002000, 0x0edb8832),
    Xor32(Pick(v, 0x00001000, 0xee0e612c),
    Xor32(Pick(v, 0x00000800, 0x3b83984b),
    Xor32(Pick(v, 0x00000400, 0x958424a2),
    Xor32(Pick(v, 0x00000200, 0xc8d98a08),
    Xor32(Pick(v, 0x00000100, 0x32366282),
    rest))))))))
  }

  function Squares3(v: bv32, rest: bv32): bv32 {
    Xor32(Pick(v, 0x00000080, 0xe1351b80),
    Xor32(Pick(v, 0x00000040, 0x384d46e0),
    Xor32(Pick(v, 0x00000020, 0x0e1351b8),
    Xor32(Pick(v, 0x00000010, 0x0384d46e),
    Xor32(Pick(v, 0x00000008, 0xed59b63b),
    Xor32(Pick(v, 0x00000004, 0xa032af3e),
    Xor32(Pick(v, 0x00000002, 0xc5b428ef),
    Xor32(Pick(v, 0x00000001, 0xaa09c88b),
    rest))))))))
  }

  /** A square by the table of the x^(2i) for i below 32. */
  function Square32(v: bv32): bv32 {
    Squares0(v, Squares1(v, Squares2(v, Squares3(v, 0))))
  }

  lemma {:induction false} SquareStep(v: Word, c: bv32, m: bv32, d: bv32)
    requires m != 0 && X2(Word(c)) == Word(d)
    ensures SquareBits(v, Word(c), Word(m))
        == Word(Xor32(Pick(v.bits, m, c), SquareBits(v, Word(d), Word(m >> 1)).bits))
  {
    hide X2, Xor32;
    HasPick(v, m, c);
  }

  lemma {:induction false} HasPick(v: Word, m: bv32, c: bv32)
    ensures (if Has(v, Word(m)) then Word(c) else ZERO) == Word(Pick(v.bits, m, c))
  {
  }

  lemma {:induction false} SquarePart0(v: Word)
    ensures SquareBits(v, Word(0x80000000), Word(0x80000000))
         == Word(Squares0(v.bits, SquareBits(v, Word(0x00008000), Word(0x00800000)).bits))
  {
    hide Xor32, Pick, X2, SquareBits;
    SquareConstants0();
    SquareStep(v, 0x80000000, 0x80000000, 0x20000000);
    SquareStep(v, 0x20000000, 0x40000000, 0x08000000);
    SquareStep(v, 0x08000000, 0x20000000, 0x02000000);
    SquareStep(v, 0x02000000, 0x10000000, 0x00800000);
    SquareStep(v, 0x00800000, 0x08000000, 0x00200000);
    SquareStep(v, 0x00200000, 0x04000000, 0x00080000);
    SquareStep(v, 0x00080000, 0x02000000, 0x00020000);
    SquareStep(v, 0x00020000, 0x01000000, 0x00008000);
  }

  lemma {:induction false} SquareConstants0()
    ensures X2(Word(0x80000000)) == Word(0x20000000)
    ensures X2(Word(0x20000000)) == Word(0x08000000)
    ensures X2(Word(0x08000000)) == Word(0x02000000)
    ensures X2(Word(0x02000000)) == Word(0x00800000)
    ensures X2(Word(0x00800000)) == Word(0x00200000)
    ensures X2(Word(0x00200000)) == Word(0x00080000)
    ensures X2(Word(0x00080000)) == Word(0x00020000)
    ensures X2(Word(0x00020000)) == Word(0x00008000)
  {
  }

  lemma {:induction false} SquarePart1(v: Word)
    ensures SquareBits(v, Word(0x00008000), Word(0x00800000))
         == Word(Squares1(v.bits, SquareBits(v, Word(0xedb88320), Word(0x00008000)).bits))
  {
    hide Xor32, Pick, X2, SquareBits;
    SquareConstants1();
    SquareStep(v, 0x00008000, 0x00800000, 0x00002000);
    SquareStep(v, 0x00002000, 0x00400000, 0x00000800);
    SquareStep(v, 0x00000800, 0x00200000, 0x00000200);
    SquareStep(v, 0x00000200, 0x00100000, 0x00000080);
    SquareStep(v, 0x00000080, 0x00080000, 0x00000020);
    SquareStep(v, 0x00000020, 0x00040000, 0x00000008);
    SquareStep(v, 0x00000008, 0x00020000, 0x00000002);
    SquareStep(v, 0x00000002, 0x00010000, 0xedb88320);
  }

  lemma {:induction false} SquareConstants1()
    ensures X2(Word(0x00008000)) == Word(0x00002000)
    ensures X2(Word(0x00002000)) == Word(0x00000800)
    ensures X2(Word(0x00000800)) == Word(0x00000200)
    ensures X2(Word(0x00000200)) == Word(0x00000080)
    ensures X2(Word(0x00000080)) == Word(0x00000020)
    ensures X2(Word(0x00000020)) == Word(0x00000008)
    ensures X2(Word(0x00000008)) == Word(0x00000002)
    ensures X2(Word(0x00000002)) == Word(0xedb88320)
  {
  }

  lemma {:induction false} SquarePart2(v: Word)
    ensures SquareBits(v, Word(0xedb88320), Word(0x00008000))
         == Word(Squares2(v.bits, SquareBits(v, Word(0xe1351b80), Word(0x00000080)).bits))
  {
    hide Xor32, Pick, X2, SquareBits;
    SquareConstants2();
    SquareStep(v, 0xedb88320, 0x00008000, 0x3b6e20c8);
    SquareStep(v, 0x3b6e20c8, 0x00004000, 0x0edb8832);
    SquareStep(v, 0x0edb8832, 0x00002000, 0xee0e612c);
    SquareStep(v, 0xee0e612c, 0x00001000, 0x3b83984b);
    SquareStep(v, 0x3b83984b, 0x00000800, 0x958424a2);
    SquareStep(v, 0x958424a2, 0x00000400, 0xc8d98a08);
    SquareStep(v, 0xc8d98a08, 0x00000200, 0x32366282);
    SquareStep(v, 0x32366282, 0x00000100, 0xe1351b80);
  }

  lemma {:induction false} SquareConstants2()
    ensures X2(Word(0xedb88320)) == Word(0x3b6e20c8)
    ensures X2(Word(0x3b6e20c8)) == Word(0x0edb8832)
    ensures X2(Word(0x0edb8832)) == Word(0xee0e612c)
    ensures X2(Word(0xee0e612c)) == Word(0x3b83984b)
    ensures X2(Word(0x3b83984b)) == Word(0x958424a2)
    ensures X2(Word(0x958424a2)) == Word(0xc8d98a08)
    ensures X2(Word(0xc8d98a08)) == Word(0x32366282)
    ensures X2(Word(0x32366282)) == Word(0xe1351b80)
  {
  }

  lemma {:induction false} SquarePart3(v: Word)
    ensures SquareBits(v, Word(0xe1351b80), Word(0x00000080))
         == Word(Squares3(v.bits, SquareBits(v, Word(0xb1e6b092), Word(0x00000000)).bits))
  {
    hide Xor32, Pick, X2, SquareBits;
    SquareConstants3();
    SquareStep(v, 0xe1351b80, 0x00000080, 0x384d46e0);
    SquareStep(v, 0x384d46e0, 0x00000040, 0x0e1351b8);
    SquareStep(v, 0x0e1351b8, 0x00000020, 0x0384d46e);
    SquareStep(v, 0x0384d46e, 0x00000010, 0xed59b63b);
    SquareStep(v, 0xed59b63b, 0x00000008, 0xa032af3e);
    SquareStep(v, 0xa032af3e, 0x00000004, 0xc5b428ef);
    SquareStep(v, 0xc5b428ef, 0x00000002, 0xaa09c88b);
    SquareStep(v, 0xaa09c88b, 0x00000001, 0xb1e6b092);
  }

  lemma {:induction false} SquareConstants3()
    ensures X2(Word(0xe1351b80)) == Word(0x384d46e0)
    ensures X2(Word(0x384d46e0)) == Word(0x0e1351b8)
    ensures X2(Word(0x0e1351b8)) == Word(0x0384d46e)
    ensures X2(Word(0x0384d46e)) == Word(0xed59b63b)
    ensures X2(Word(0xed59b63b)) == Word(0xa032af3e)
    ensures X2(Word(0xa032af3e)) == Word(0xc5b428ef)
    ensures X2(Word(0xc5b428ef)) == Word(0xaa09c88b)
    ensures X2(Word(0xaa09c88b)) == Word(0xb1e6b092)
  {
  }

  lemma {:induction false} SquareTable(v: Word)
    ensures Mul(v, v) == Word(Square32(v.bits))
  {
    hide Mul, SquareBits, Squares0, Squares1, Squares2, Squares3;
    SquareIs(v);
    SquarePart0(v);
    SquarePart1(v);
    SquarePart2(v);
    SquarePart3(v);
    assert SquareBits(v, Word(0xb1e6b092), ZERO) == ZERO by { NoSquare(v, Word(0xb1e6b092)); }
  }

  lemma {:induction false} NoSquare(v: Word, c: Word)
    ensures SquareBits(v, c, ZERO) == ZERO
  {
  }

  lemma {:induction false} SquareTo(n: nat, v: bv32, w: bv32)
    requires XN(ONE, Pow2(n)) == Word(v) && Square32(v) == w
    ensures XN(ONE, Pow2(n + 1)) == Word(w)
  {
    hide Square32, Mul, XN;
    SquareTable(Word(v));
    PowerAdd(Pow2(n), Pow2(n));
  }

  lemma {:induction false} Powers0()
    requires XN(ONE, Pow2(0)) == Word(0x40000000)
    ensures XN(ONE, Pow2(4)) == Word(0x00008000)
  {
    hide Square32, XN, Pow2;
    Square0();
    Square1();
    Square2();
    Square3();
    SquareTo(0, 0x40000000, 0x20000000);
    SquareTo(1, 0x20000000, 0x08000000);
    SquareTo(2, 0x08000000, 0x00800000);
    SquareTo(3, 0x00800000, 0x00008000);
  }

  lemma {:induction false} Square0()
    ensures Square32(0x40000000) == 0x20000000
  {
  }

  lemma {:induction false} Square1()
    ensures Square32(0x20000000) == 0x08000000
  {
  }

  lemma {:induction false} Square2()
    ensures Square32(0x08000000) == 0x00800000
  {
  }

  lemma {:induction false} Square3()
    ensures Square32(0x00800000) == 0x00008000
  {
  }

  lemma {:induction false} Powers1()
    requires XN(ONE, Pow2(4)) == Word(0x00008000)
    ensures XN(ONE, Pow2(8)) == Word(0xed627dae)
  {
    hide Square32, XN, Pow2;
    Square4();
    Square5();
    Square6();
    Square7();
    SquareTo(4, 0x00008000, 0xedb88320);
    SquareTo(5, 0xedb88320, 0xb1e6b092);
    SquareTo(6, 0xb1e6b092, 0xa06a2517);
    SquareTo(7, 0xa06a2517, 0xed627dae);
  }

  lemma {:induction false} Square4()
    ensures Square32(0x00008000) == 0xedb88320
  {
  }

  lemma {:induction false} Square5()
    ensures Square32(0xedb88320) == 0xb1e6b092
  {
  }

  lemma {:induction false} Square6()
    ensures Square32(0xb1e6b092) == 0xa06a2517
  {
  }

  lemma {:induction false} Square7()
    ensures Square32(0xa06a2517) == 0xed627dae
  {
  }

  lemma {:induction false} Powers2()
    requires XN(ONE, Pow2(8)) == Word(0xed627dae)
    ensures XN(ONE, Pow2(12)) == Word(0x8e7ea170)
  {
    hide Square32, XN, Pow2;
    Square8();
    Square9();
    Square10();
    Square11();
    SquareTo(8, 0xed627dae, 0x88d14467);
    SquareTo(9, 0x88d14467, 0xd7bbfe6a);
    SquareTo(10, 0xd7bbfe6a, 0xec447f11);
    SquareTo(11, 0xec447f11, 0x8e7ea170);
  }

  lemma {:induction false} Square8()
    ensures Square32(0xed627dae) == 0x88d14467
  {
  }

  lemma {:induction false} Square9()
    ensures Square32(0x88d14467) == 0xd7bbfe6a
  {
  }

  lemma {:induction false} Square10()
    ensures Square32(0xd7bbfe6a) == 0xec447f11
  {
  }

  lemma {:induction false} Square11()
    ensures Square32(0xec447f11) == 0x8e7ea170
  {
  }

  lemma {:induction false} Powers3()
    requires XN(ONE, Pow2(12)) == Word(0x8e7ea170)
    ensures XN(ONE, Pow2(16)) == Word(0x83852d0f)
  {
    hide Square32, XN, Pow2;
    Square12();
    Square13();
    Square14();
    Square15();
    SquareTo(12, 0x8e7ea170, 0x6427800e);
    SquareTo(13, 0x6427800e, 0x4d47bae0);
    SquareTo(14, 0x4d47bae0, 0x09fe548f);
    SquareTo(15, 0x09fe548f, 0x83852d0f);
  }

  lemma {:induction false} Square12()
    ensures Square32(0x8e7ea170) == 0x6427800e
  {
  }

  lemma {:induction false} Square13()
    ensures Square32(0x6427800e) == 0x4d47bae0
  {
  }

  lemma {:induction false} Square14()
    ensures Square32(0x4d47bae0) == 0x09fe548f
  {
  }

  lemma {:induction false} Square15()
    ensures Square32(0x09fe548f) == 0x83852d0f
  {
  }

  lemma {:induction false} Powers4()
    requires XN(ONE, Pow2(16)) == Word(0x83852d0f)
    ensures XN(ONE, Pow2(20)) == Word(0x9fec022a)
  {
    hide Square32, XN, Pow2;
    Square16();
    Square17();
    Square18();
    Square19();
    SquareTo(16, 0x83852d0f, 0x30362f1a);
    SquareTo(17, 0x30362f1a, 0x7b5a9cc3);
    SquareTo(18, 0x7b5a9cc3, 0x31fec169);
    SquareTo(19, 0x31fec169, 0x9fec022a);
  }

  lemma {:induction false} Square16()
    ensures Square32(0x83852d0f) == 0x30362f1a
  {
  }

  lemma {:induction false} Square17()
    ensures Square32(0x30362f1a) == 0x7b5a9cc3
  {
  }

  lemma {:induction false} Square18()
    ensures Square32(0x7b5a9cc3) == 0x31fec169
  {
  }

  lemma {:induction false} Square19()
    ensures Square32(0x31fec169) == 0x9fec022a
  {
  }

  lemma {:induction false} Powers5()
    requires XN(ONE, Pow2(20)) == Word(0x9fec022a)
    ensures XN(ONE, Pow2(24)) == Word(0xbad90e37)
  {
    hide Square32, XN, Pow2;
    Square20();
    Square21();
    Square22();
    Square23();
    SquareTo(20, 0x9fec022a, 0x6c8dedc4);
    SquareTo(21, 0x6c8dedc4, 0x15d6874d);
    SquareTo(22, 0x15d6874d, 0x5fde7a4e);
    SquareTo(23, 0x5fde7a4e, 0xbad90e37);
  }

  lemma {:induction false} Square20()
    ensures Square32(0x9fec022a) == 0x6c8dedc4
  {
  }

  lemma {:induction false} Square21()
    ensures Square32(0x6c8dedc4) == 0x15d6874d
  {
  }

  lemma {:induction false} Square22()
    ensures Square32(0x15d6874d) == 0x5fde7a4e
  {
  }

  lemma {:induction false} Square23()
    ensures Square32(0x5fde7a4e) == 0xbad90e37
  {
  }

  lemma {:induction false} Powers6()
    requires XN(ONE, Pow2(24)) == Word(0xbad90e37)
    ensures XN(ONE, Pow2(28)) == Word(0x429a969e)
  {
    hide Square32, XN, Pow2;
    Square24();
    Square25();
    Square26();
    Square27();
    SquareTo(24, 0xbad90e37, 0x2e4e5eef);
    SquareTo(25, 0x2e4e5eef, 0x4eaba214);
    SquareTo(26, 0x4eaba214, 0xa8a472c0);
    SquareTo(27, 0xa8a472c0, 0x429a969e);
  }

  lemma {:induction false} Square24()
    ensures Square32(0xbad90e37) == 0x2e4e5eef
  {
  }

  lemma {:induction false} Square25()
    ensures Square32(0x2e4e5eef) == 0x4eaba214
  {
  }

  lemma {:induction false} Square26()
    ensures Square32(0x4eaba214) == 0xa8a472c0
  {
  }

  lemma {:induction false} Square27()
    ensures Square32(0xa8a472c0) == 0x429a969e
  {
  }

  lemma {:induction false} Powers7()
    requires XN(ONE, Pow2(28)) == Word(0x429a969e)
    ensures XN(ONE, Pow2(32)) == Word(0x40000000)
  {
    hide Square32, XN, Pow2;
    Square28();
    Square29();
    Square30();
    Square31();
    SquareTo(28, 0x429a969e, 0x148d302a);
    SquareTo(29, 0x148d302a, 0xc40ba6d0);
    SquareTo(30, 0xc40ba6d0, 0xc4e22c3c);
    SquareTo(31, 0xc4e22c3c, 0x40000000);
  }

  lemma {:induction false} Square28()
    ensures Square32(0x429a969e) == 0x148d302a
  {
  }

  lemma {:induction false} Square29()
    ensures Square32(0x148d302a) == 0xc40ba6d0
  {
  }

  lemma {:induction false} Square30()
    ensures Square32(0xc40ba6d0) == 0xc4e22c3c
  {
  }

  lemma {:induction false} Square31()
    ensures Square32(0xc4e22c3c) == 0x40000000
  {
  }

  /** x^(2^32) is x again. */
  lemma {:induction false} PowersAround()
    ensures XN(ONE, Pow2(32)) == XN(ONE, Pow2(0))
  {
    hide XN, Pow2;
    PowerOne();
    Powers0();
    Powers1();
    Powers2();
    Powers3();
    Powers4();
    Powers5();
    Powers6();
    Powers7();
  }

  lemma {:induction false} PowerOne()
    ensures XN(ONE, Pow2(0)) == Word(0x40000000)
  {
    XNOne(ONE);
  }

  /** ... so that the powers x^(2^k) repeat, and a table of 32 is enough. */
  lemma {:induction false} PowersRepeat(k: nat)
    ensures XN(ONE, Pow2(k)) == XN(ONE, Pow2(k % 32))
    decreases k
  {
    hide XN, Mul;
    if k >= 32 {
      PowersRepeat(k - 32);
      PowersShift(k - 32);
      assert k % 32 == (k - 32) % 32;
    }
  }

  lemma {:induction false} PowersShift(k: nat)
    ensures XN(ONE, Pow2(k + 32)) == XN(ONE, Pow2(k))
    decreases k
  {
    hide XN, Mul;
    if k == 0 {
      PowersAround();
    } else {
      PowersShift(k - 1);
      PowerAdd(Pow2(k - 1), Pow2(k - 1));
      PowerAdd(Pow2(k + 31), Pow2(k + 31));
    }
  }

  // ---- multmodp and x2nmodp ----

  lemma {:induction false} TailNone(a: Word, m: Word)
    requires Single(m) && Tail(a, m) == ZERO
    ensures !Has(a, m) && And(a, Below(m)) == ZERO
  {
  }

  lemma {:induction false} MulTail(a: Word, b: Word, m: Word)
    requires Single(m) && Tail(a, m) == ZERO
    ensures MulBits(a, b, m) == ZERO
    decreases m.bits
  {
    hide X, Add, And, Has, Half, Single, Below, Tail;
    SingleHalf(m);
    TailNone(a, m);
    AddZero(ZERO);
    HalfLess(m);
    if Half(m) != ZERO {
      TailHalf(a, m);
      MulTail(a, X(b), Half(m));
    }
  }

  lemma {:induction false} MulRest(a: Word, b: Word, m: Word)
    requires Single(m) && And(a, Below(m)) == ZERO
    ensures MulBits(a, b, Half(m)) == ZERO
  {
    hide X, Add, And, Has, Single, Below, Tail;
    if Half(m) != ZERO {
      SingleHalf(m);
      TailHalf(a, m);
      MulTail(a, b, Half(m));
    }
  }

  lemma {:induction false} MulMore(a: Word, m: Word)
    requires Single(m) && Tail(a, m) != ZERO && (Has(a, m) ==> And(a, Below(m)) != ZERO)
    ensures Half(m) != ZERO && Single(Half(m)) && Tail(a, Half(m)) != ZERO && Half(m).bits < m.bits
  {
    hide Add, Half, Has, Single, Below, And;
    SingleHalf(m);
    SingleHas(a, m);
    AddZero(And(a, Below(m)));
    AndZero(a);
    HalfLess(m);
    if Half(m) != ZERO { TailHalf(a, m); }
  }

  lemma {:induction false} MulUnroll(a: Word, b: Word, m: Word)
    ensures MulBits(a, b, m) == Add(if Has(a, m) then b else ZERO, MulBits(a, X(b), Half(m)))
  {
    hide X, Half, Has, Add;
    if m == ZERO { NoTerm(a); }
  }

  /** The product of polynomials modulo p(x), from the lowest term of a on until none is left;
      without a term there would be no end. */
  method Multmodp(a: Word, b: Word) returns (p: Word)
    requires a != ZERO
    ensures p == Mul(a, b)
  {
    hide X, Add, And, Below, Half, Single, Has, MulBits, Tail;
    var m, c := ONE, b;
    p := ZERO;
    TailAll(a);
    AddZero(MulBits(a, b, ONE));
    while true
      invariant Single(m) && Tail(a, m) != ZERO
      invariant Add(p, MulBits(a, c, m)) == Mul(a, b)
      decreases m.bits
    {
      MulUnroll(a, c, m);
      AddAssoc(p, c, MulBits(a, X(c), Half(m)));
      AddZero(MulBits(a, X(c), Half(m)));
      if Has(a, m) {
        p := Add(p, c);
        if And(a, Below(m)) == ZERO {
          MulRest(a, X(c), m);
          AddZero(p);
          break;
        }
      }
      MulMore(a, m);
      m := Half(m);
      c := X(c);
    }
  }

  // ---- the tables and their use ----

  /** Four times eight bits of a word are all of it. */
  function DownN(v: Word, k: nat): Word
    decreases k
  {
    if k == 0 then v else Down8(DownN(v, k - 1))
  }

  lemma {:induction false} DownAll(v: Word)
    ensures DownN(v, 4) == ZERO
  {
    hide Down8;
    assert DownN(v, 2) == Down8(DownN(v, 1)) == Down8(Down8(DownN(v, 0)));
    assert DownN(v, 4) == Down8(DownN(v, 3)) == Down8(Down8(DownN(v, 2)));
    DownFour(v);
  }

  lemma {:induction false} DownFour(v: Word)
    ensures Down8(Down8(Down8(Down8(v)))) == ZERO
  {
  }

  /** A byte in the top of a word, moved down. */
  lemma {:induction false} TopByte(b: byte, n: nat)
    ensures XN(Up8(Up8(Up8(Value(b)))), n + 24) == XN(Value(b), n)
    ensures b > 0 ==> Up8(Up8(Up8(Value(b)))) != ZERO
  {
    hide XN, Up8, Value;
    var u := Value(b);
    ValueSmall(b);
    UpSmall(u);
    UpSmall(Up8(u));
    WordSmall(u);
    WordSmall(Up8(u));
    XNAdd(Up8(Up8(Up8(u))), 8, n + 16);
    UpDown(Up8(Up8(u)));
    XNAdd(Up8(Up8(u)), 8, n + 8);
    UpDown(Up8(u));
    XNAdd(Up8(u), 8, n);
    UpDown(u);
    if Up8(Up8(Up8(u))) == ZERO {
      XNZero(ZERO, 24);
      XNAdd(Up8(Up8(Up8(u))), 8, 16);
      XNAdd(Up8(Up8(u)), 8, 8);
    }
  }

  /** Eight steps by a table of the bytes. */
  lemma {:induction false} TableStep(d: Word)
    ensures XN(d, 8) == Add(Down8(d), XN(Value(Index(d)), 8))
  {
    hide XN, Add, Value, Index, Low8, Down8;
    Split(d, 0);
    ValueIndex(d);
    AddComm(XN(Low8(d), 8), Down8(d));
    assert XN(Down8(d), 0) == Down8(d) by { XNNone(Down8(d)); }
  }

  lemma {:induction false} XNNone(v: Word)
    ensures XN(v, 0) == v
  {
  }

  /** What five registers, taking turns at the words of a message, stand for. */
  function Sum5(c0: Word, c1: Word, c2: Word, c3: Word, c4: Word): Word {
    Add(XN(c0, 160), Add(XN(c1, 128), Add(XN(c2, 96), Add(XN(c3, 64), XN(c4, 32)))))
  }

  lemma {:induction false} Sum5Add(c0: Word, c1: Word, c2: Word, c3: Word, c4: Word,
                                   w0: Word, w1: Word, w2: Word, w3: Word, w4: Word)
    ensures Sum5(Add(c0, w0), Add(c1, w1), Add(c2, w2), Add(c3, w3), Add(c4, w4))
         == Add(Sum5(c0, c1, c2, c3, c4), Sum5(w0, w1, w2, w3, w4))
  {
    hide Add, XN;
    XNLinear(c0, w0, 160);
    XNLinear(c1, w1, 128);
    XNLinear(c2, w2, 96);
    XNLinear(c3, w3, 64);
    XNLinear(c4, w4, 32);
    var c34, w34 := Add(XN(c3, 64), XN(c4, 32)), Add(XN(w3, 64), XN(w4, 32));
    AddFour(XN(c3, 64), XN(w3, 64), XN(c4, 32), XN(w4, 32));
    var c24, w24 := Add(XN(c2, 96), c34), Add(XN(w2, 96), w34);
    AddFour(XN(c2, 96), XN(w2, 96), c34, w34);
    var c14, w14 := Add(XN(c1, 128), c24), Add(XN(w1, 128), w24);
    AddFour(XN(c1, 128), XN(w1, 128), c24, w24);
    AddFour(XN(c0, 160), XN(w0, 160), c14, w14);
  }

  lemma {:induction false} XNSwap(v: Word, m: nat, n: nat)
    ensures XN(XN(v, m), n) == XN(XN(v, n), m)
  {
    hide XN;
    XNAdd(v, m, n);
    XNAdd(v, n, m);
  }

  lemma {:induction false} Sum5Move(d0: Word, d1: Word, d2: Word, d3: Word, d4: Word)
    ensures Sum5(XN(d0, 160), XN(d1, 160), XN(d2, 160), XN(d3, 160), XN(d4, 160)) == XN(Sum5(d0, d1, d2, d3, d4), 160)
  {
    hide Add, XN;
    var d34 := Add(XN(d3, 64), XN(d4, 32));
    var d24 := Add(XN(d2, 96), d34);
    var d14 := Add(XN(d1, 128), d24);
    XNLinear(XN(d3, 64), XN(d4, 32), 160);
    XNLinear(XN(d2, 96), d34, 160);
    XNLinear(XN(d1, 128), d24, 160);
    XNLinear(XN(d0, 160), d14, 160);
    XNSwap(d1, 160, 128);
    XNSwap(d2, 160, 96);
    XNSwap(d3, 160, 64);
    XNSwap(d4, 160, 32);
  }

  /** The registers of the last block, one after the other. */
  lemma {:induction false} Sum5Chain(d0: Word, d1: Word, d2: Word, d3: Word, d4: Word)
    ensures XN(Add(d4, XN(Add(d3, XN(Add(d2, XN(Add(d1, XN(d0, 32)), 32)), 32)), 32)), 32) == Sum5(d0, d1, d2, d3, d4)
  {
    hide Add, XN;
    var r0 := XN(d0, 32);
    var r1 := XN(Add(d1, r0), 32);
    var r2 := XN(Add(d2, r1), 32);
    var r3 := XN(Add(d3, r2), 32);
    ChainStep(d1, r0);
    XNAdd(d0, 32, 32);
    ChainStep(d2, r1);
    XNLinear(XN(d0, 64), XN(d1, 32), 32);
    XNAdd(d0, 64, 32);
    XNAdd(d1, 32, 32);
    ChainStep(d3, r2);
    XNLinear(Add(XN(d0, 96), XN(d1, 64)), XN(d2, 32), 32);
    XNLinear(XN(d0, 96), XN(d1, 64), 32);
    XNAdd(d0, 96, 32);
    XNAdd(d1, 64, 32);
    XNAdd(d2, 32, 32);
    ChainStep(d4, r3);
    XNLinear(Add(Add(XN(d0, 128), XN(d1, 96)), XN(d2, 64)), XN(d3, 32), 32);
    XNLinear(Add(XN(d0, 128), XN(d1, 96)), XN(d2, 64), 32);
    XNLinear(XN(d0, 128), XN(d1, 96), 32);
    XNAdd(d0, 128, 32);
    XNAdd(d1, 96, 32);
    XNAdd(d2, 64, 32);
    XNAdd(d3, 32, 32);
    AddFive(XN(d0, 160), XN(d1, 128), XN(d2, 96), XN(d3, 64), XN(d4, 32));
  }

  lemma {:induction false} ChainStep(d: Word, r: Word)
    ensures XN(Add(d, r), 32) == Add(XN(r, 32), XN(d, 32))
  {
    hide Add, XN;
    XNLinear(d, r, 32);
    AddComm(XN(d, 32), XN(r, 32));
  }

  lemma {:induction false} AddFive(a: Word, b: Word, c: Word, d: Word, e: Word)
    ensures Add(Add(Add(Add(a, b), c), d), e) == Add(a, Add(b, Add(c, Add(d, e))))
  {
    hide Add;
    AddAssoc(Add(Add(a, b), c), d, e);
    AddAssoc(Add(a, b), c, Add(d, e));
    AddAssoc(a, b, Add(c, Add(d, e)));
  }

  /** The jth word of a block. */
  function WordAt(s: seq<byte>, j: nat): Word
    requires 4 * j + 4 <= |s|
  {
    Load(s[4 * j..4 * j + 4])
  }

  lemma {:induction false} WordThen(r: Word, s: seq<byte>)
    requires |s| >= 4
    ensures BitCrc(r, BytesBits(s)) == BitCrc(XN(Add(WordAt(s, 0), r), 32), BytesBits(s[4..]))
  {
    hide Add, XN, Load, BytesBits, BitCrc;
    assert s == s[0..4] + s[4..];
    BytesBitsConcat(s[0..4], s[4..]);
    BitCrcConcat(r, BytesBits(s[0..4]), BytesBits(s[4..]));
    WordStep(r, s[0..4]);
    AddComm(r, WordAt(s, 0));
  }

  lemma {:induction false} WordLater(s: seq<byte>, i: nat, j: nat)
    requires 4 * i + 4 * j + 4 <= |s|
    ensures WordAt(s[4 * i..], j) == WordAt(s, i + j)
  {
    hide Load;
    assert s[4 * i..][4 * j..4 * j + 4] == s[4 * (i + j)..4 * (i + j) + 4];
  }

  /** A block of five words. */
  lemma {:induction false} FiveWords(s: seq<byte>)
    requires |s| == 20
    ensures BitCrc(ZERO, BytesBits(s)) == Sum5(WordAt(s, 0), WordAt(s, 1), WordAt(s, 2), WordAt(s, 3), WordAt(s, 4))
  {
    hide Add, XN, WordAt, BytesBits, BitCrc, Sum5;
    var r0 := XN(WordAt(s, 0), 32);
    WordThen(ZERO, s);
    AddZero(WordAt(s, 0));
    var r1 := XN(Add(WordAt(s, 1), r0), 32);
    WordThen(r0, s[4..]);
    WordLater(s, 1, 0);
    assert s[4..][4..] == s[8..] && s[8..][4..] == s[12..] && s[12..][4..] == s[16..] && s[16..][4..] == [];
    var r2 := XN(Add(WordAt(s, 2), r1), 32);
    WordThen(r1, s[8..]);
    WordLater(s, 2, 0);
    var r3 := XN(Add(WordAt(s, 3), r2), 32);
    WordThen(r2, s[12..]);
    WordLater(s, 3, 0);
    WordThen(r3, s[16..]);
    WordLater(s, 4, 0);
    NoBits(XN(Add(WordAt(s, 4), r3), 32));
    Sum5Chain(WordAt(s, 0), WordAt(s, 1), WordAt(s, 2), WordAt(s, 3), WordAt(s, 4));
  }

  lemma {:induction false} NoBits(r: Word)
    ensures BitCrc(r, BytesBits([])) == r
  {
  }

  /** One block goes into the five registers. */
  lemma {:induction false} BlockStep(r: Word, s: seq<byte>, c0: Word, c1: Word, c2: Word, c3: Word, c4: Word)
    requires |s| == 20 && XN(r, 160) == Sum5(c0, c1, c2, c3, c4)
    ensures BitCrc(r, BytesBits(s)) == Sum5(Add(c0, WordAt(s, 0)), Add(c1, WordAt(s, 1)), Add(c2, WordAt(s, 2)),
                                            Add(c3, WordAt(s, 3)), Add(c4, WordAt(s, 4)))
  {
    hide Add, XN, WordAt, BytesBits, BitCrc, Sum5;
    FiveWords(s);
    BitCrcLinear(r, ZERO, BytesBits(s));
    AddZero(r);
    Sum5Add(c0, c1, c2, c3, c4, WordAt(s, 0), WordAt(s, 1), WordAt(s, 2), WordAt(s, 3), WordAt(s, 4));
  }

  lemma {:induction false} ValueZero(n: nat)
    ensures Pack(ToBits(0, n)) == ZERO
    decreases n
  {
    hide Add, Double, Bit;
    if n > 0 {
      ValueZero(n - 1);
      assert ToBits(0, n)[1..] == ToBits(0, n - 1);
      ZeroStep();
    }
  }

  lemma {:induction false} ZeroStep()
    ensures Add(Bit(false), Double(ZERO)) == ZERO
  {
  }

  lemma {:induction false} ShlBit(n: nat, k: nat)
    ensures Shl(n, k) == (if n % 2 == 1 then Pow2(k) else 0) + Shl(n / 2, k + 1)
  {
    hide Shl, Pow2;
    ShlAdd(n % 2, 2 * (n / 2), k);
    ShlDouble(n / 2, k);
    Shl1(k);
  }

  /** An entry of a braiding table. */
  lemma {:induction false} BraidEntry(b: byte, e: nat)
    ensures Mul(Up8(Up8(Up8(Value(b)))), XN(ONE, e + 24)) == XN(Value(b), e)
    ensures XN(Value(0), e) == ZERO
  {
    hide Mul, XN, Up8, Pack;
    MulComm(Up8(Up8(Up8(Value(b)))), XN(ONE, e + 24));
    MulPower(e + 24, Up8(Up8(Up8(Value(b)))));
    TopByte(b, e);
    ValueZero(8);
    XNZero(ZERO, e);
  }

  /** The bytes of a buffer, one by one. */
  lemma {:induction false} NextByte(s: Word, data: seq<byte>, i: nat)
    requires i < |data|
    ensures BitCrc(s, BytesBits(data[..i + 1]))
         == XN(Add(BitCrc(s, BytesBits(data[..i])), Value(data[i])), 8)
  {
    hide Add, XN, BitCrc, BytesBits, ToBits, Value;
    NextBytes(s, data, i, i + 1);
    assert data[i..i + 1] == [data[i]];
    assert BytesBits([data[i]]) == ToBits(data[i], 8) by { OneByte(data[i]); }
    ByteStep(BitCrc(s, BytesBits(data[..i])), data[i]);
  }

  lemma {:induction false} OneByte(b: byte)
    ensures BytesBits([b]) == ToBits(b, 8)
  {
    hide ToBits;
    assert [b][1..] == [];
  }

  lemma {:induction false} NextBytes(s: Word, data: seq<byte>, i: nat, j: nat)
    requires i <= j <= |data|
    ensures BitCrc(s, BytesBits(data[..j])) == BitCrc(BitCrc(s, BytesBits(data[..i])), BytesBits(data[i..j]))
  {
    hide BitCrc, BytesBits;
    assert data[..j] == data[..i] + data[i..j];
    BytesBitsConcat(data[..i], data[i..j]);
    BitCrcConcat(s, BytesBits(data[..i]), BytesBits(data[i..j]));
  }

  // ---- the other byte order ----

  function Swap32(v: bv32): bv32 {
    ((v & 0xff000000) >> 24) | ((v & 0xff0000) >> 8) | ((v & 0xff00) << 8) | ((v & 0xff) << 24)
  }

  /** The bytes of a word in reverse. */
  function Swap(v: Word): Word {
    Word(Swap32(v.bits))
  }

  lemma {:induction false} SwapRaw(a: bv32, b: bv32)
    ensures Swap32(a ^ b) == Swap32(a) ^ Swap32(b)
  {
  }

  lemma {:induction false} SwapXor(a: bv32, b: bv32)
    ensures Swap32(Xor32(a, b)) == Xor32(Swap32(a), Swap32(b))
  {
    hide Swap32;
    SwapRaw(a, b);
  }

  lemma {:induction false} SwapAdd(a: Word, b: Word)
    ensures Swap(Add(a, b)) == Add(Swap(a), Swap(b))
  {
    hide Swap32, Xor32;
    SwapXor(a.bits, b.bits);
  }

  lemma {:induction false} SwapSwap(a: Word)
    ensures Swap(Swap(a)) == a && Swap(ZERO) == ZERO
  {
  }

  lemma {:induction false} SwapDown(v: Word)
    ensures Up8(Swap(v)) == Swap(Down8(v))
  {
  }

  lemma {:induction false} SwapBytes(v: Word)
    ensures Low8(DownN(Swap(v), 0)) == Low8(DownN(v, 3)) && Low8(DownN(Swap(v), 1)) == Low8(DownN(v, 2))
    ensures Low8(DownN(Swap(v), 2)) == Low8(DownN(v, 1)) && Low8(DownN(Swap(v), 3)) == Low8(DownN(v, 0))
  {
    hide Low8, Swap, Down8;
    DownSome(v);
    DownSome(Swap(v));
    SwapLows(v);
  }

  lemma {:induction false} DownSome(v: Word)
    ensures DownN(v, 0) == v && DownN(v, 1) == Down8(v)
    ensures DownN(v, 2) == Down8(Down8(v)) && DownN(v, 3) == Down8(Down8(Down8(v)))
  {
    hide Down8;
    assert DownN(v, 2) == Down8(DownN(v, 1)) == Down8(Down8(DownN(v, 0)));
  }

  lemma {:induction false} SwapLows(v: Word)
    ensures Low8(Swap(v)) == Low8(Down8(Down8(Down8(v)))) && Low8(Down8(Swap(v))) == Low8(Down8(Down8(v)))
    ensures Low8(Down8(Down8(Swap(v)))) == Low8(Down8(v)) && Low8(Down8(Down8(Down8(Swap(v))))) == Low8(v)
  {
    hide Low8, Down8, Swap;
    SwapLow0(v);
    SwapLow1(v);
    SwapLow1(Swap(v));
    SwapLow0(Swap(v));
    SwapSwap(v);
  }

  lemma {:induction false} SwapLow0(v: Word)
    ensures Low8(Swap(v)) == Low8(Down8(Down8(Down8(v))))
  {
  }

  lemma {:induction false} SwapLow1(v: Word)
    ensures Low8(Down8(Swap(v))) == Low8(Down8(Down8(v)))
  {
  }

  /** The kth byte in one order is the third less kth in the other. */
  lemma {:induction false} SwapIndex(v: Word, k: nat)
    requires k < 4
    ensures Index(DownN(Swap(v), k)) == Index(DownN(v, 3 - k))
  {
    hide Low8, Swap, DownN, Index;
    SwapBytes(v);
    IndexLow(DownN(Swap(v), k));
    IndexLow(DownN(v, 3 - k));
  }

  lemma {:induction false} IndexLow(v: Word)
    ensures Index(v) == Index(Low8(v))
  {
    hide And, Unpack, Ones;
    LowLow(v);
    OnesNone();
    UnpackLow(v, Low8(v), 8);
  }

  lemma {:induction false} LowLow(v: Word)
    ensures Low8(Low8(v)) == Low8(v)
  {
  }

  lemma {:induction false} UnpackLow(v: Word, w: Word, n: nat)
    requires n <= 8 && And(v, Word(Ones(n))) == And(w, Word(Ones(n)))
    ensures Unpack(v, n) == Unpack(w, n)
    decreases n
  {
    hide And, Ones, Odd, Half;
    if n > 0 {
      OnesStep(v, w, n);
      UnpackLow(Half(v), Half(w), n - 1);
    }
  }

  lemma {:induction false} OnesStep(v: Word, w: Word, n: nat)
    requires 0 < n <= 8 && And(v, Word(Ones(n))) == And(w, Word(Ones(n)))
    ensures Odd(v) == Odd(w) && And(Half(v), Word(Ones(n - 1))) == And(Half(w), Word(Ones(n - 1)))
  {
  }

  /** The kth byte of a word and those above it. */
  lemma {:induction false} BraidTop(v: Word, k: nat)
    requires k < 4
    ensures XN(DownN(v, k), 160 - 8 * k)
         == Add(XN(Value(Index(DownN(v, k))), 160 - 8 * k), XN(DownN(v, k + 1), 160 - 8 * (k + 1)))
  {
    hide XN, Add, Value, Index, Low8, Down8;
    Split(DownN(v, k), 152 - 8 * k);
    ValueIndex(DownN(v, k));
  }

  const N := 5   // braids
  const W := 4   // bytes in a word

  class Tables {
    const crc_table: array<Word>
    const x2n_table: array<Word>
    const crc_braid_table: array2<Word>
    const crc_big_table: array<Word>
    const crc_braid_big_table: array2<Word>

    ghost predicate Shape() {
      && crc_table.Length == 256 && crc_big_table.Length == 256 && crc_table != crc_big_table
      && x2n_table.Length == 32 && x2n_table != crc_table && x2n_table != crc_big_table
      && crc_braid_table.Length0 == W && crc_braid_table.Length1 == 256
      && crc_braid_big_table.Length0 == W && crc_braid_big_table.Length1 == 256
      && crc_braid_table != crc_braid_big_table
    }

    ghost predicate BytesMade(n: nat)
      requires Shape() && n <= 256
      reads crc_table, crc_big_table
    {
      && (forall i: byte | i < n :: crc_table[i] == XN(Value(i), 8))
      && (forall i: byte | i < n :: crc_big_table[i] == Swap(XN(Value(i), 8)))
    }

    ghost predicate PowersMade(n: nat)
      requires Shape() && n <= 32
      reads x2n_table
    {
      forall k: nat | k < n :: x2n_table[k] == XN(ONE, Pow2(k))
    }

    /** The first n entries of the kth braiding table, in both byte orders. */
    ghost predicate RowMade(k: nat, n: nat)
      requires Shape() && k < W && n <= 256
      reads crc_braid_table, crc_braid_big_table
    {
      && (forall b: byte | b < n :: crc_braid_table[k, b] == XN(Value(b), 8 * (N * W - k)))
      && (forall b: byte | b < n :: crc_braid_big_table[W - 1 - k, b] == Swap(XN(Value(b), 8 * (N * W - k))))
    }

    ghost predicate BraidMade(j: nat)
      requires Shape() && j <= W
      reads crc_braid_table, crc_braid_big_table
    {
      forall k: nat | k < j :: RowMade(k, 256)
    }

    ghost predicate Valid()
      reads crc_table, x2n_table, crc_braid_table, crc_big_table, crc_braid_big_table
    {
      Shape() && BytesMade(256) && PowersMade(32) && BraidMade(W)
    }

    /** The tables, as make_crc_table fills them. */
    constructor ()
      ensures Valid() && fresh(crc_table) && fresh(x2n_table) && fresh(crc_braid_table)
      ensures fresh(crc_big_table) && fresh(crc_braid_big_table)
    {
      crc_table := new Word[256];
      x2n_table := new Word[32];
      crc_braid_table := new Word[W, 256];
      crc_big_table := new Word[256];
      crc_braid_big_table := new Word[W, 256];
      new;
      MakeBytes();
      MakePowers();
      Braid();
    }

    method MakeBytes()
      requires Shape()
      modifies crc_table, crc_big_table
      ensures BytesMade(256)
    {
      hide XN, X, Value, Swap;
      for i := 0 to 256
        invariant BytesMade(i)
      {
        var p := Value(i);
        XNNone(p);
        for j := 0 to 8
          modifies {}
          invariant p == XN(Value(i), j)
        {
          XNLast(Value(i), j + 1);
          p := X(p);
        }
        crc_table[i] := p;
        crc_big_table[i] := Swap(p);
      }
    }

    method MakePowers()
      requires Shape()
      modifies x2n_table
      ensures PowersMade(32)
    {
      hide XN, Mul;
      var p := Word(0x40000000);
      x2n_table[0] := p;
      PowerOne();
      for n := 1 to 32
        invariant p == XN(ONE, Pow2(n - 1)) && PowersMade(n)
      {
        XNZero(ONE, Pow2(n - 1));
        PowerAdd(Pow2(n - 1), Pow2(n - 1));
        p := Multmodp(p, p);
        x2n_table[n] := p;
      }
    }

    /** The tables of the braid: what a byte does to the register N words later. */
    method Braid()
      requires Shape() && PowersMade(32)
      modifies crc_braid_table, crc_braid_big_table
      ensures BraidMade(W)
    {
      hide XN, Shl, PowersMade, RowMade;
      for k := 0 to W
        invariant BraidMade(k)
      {
        var p := X2nmodp(8 * (N * W + 3 - k), 0);
        assert Shl(8 * (N * W + 3 - k), 0) == 8 * (N * W - k) + 24 by { ShlNone(8 * (N * W + 3 - k)); }
        BraidRow(k, p);
      }
    }

    method BraidRow(k: nat, p: Word)
      requires Shape() && k < W && p == XN(ONE, 8 * (N * W - k) + 24)
      modifies crc_braid_table, crc_braid_big_table
      ensures RowMade(k, 256) && (forall j: nat | j < W && j != k && old(RowMade(j, 256)) :: RowMade(j, 256))
    {
      hide XN, Mul, Value, Up8, Swap;
      BraidEntry(0, 8 * (N * W - k));
      SwapSwap(ZERO);
      crc_braid_table[k, 0] := ZERO;
      crc_braid_big_table[W - 1 - k, 0] := ZERO;
      for i := 1 to 256
        invariant RowMade(k, i) && (forall j: nat | j < W && j != k && old(RowMade(j, 256)) :: RowMade(j, 256))
      {
        BraidEntry(i, 8 * (N * W - k));
        TopByte(i, 0);
        var q := Multmodp(Up8(Up8(Up8(Value(i)))), p);
        crc_braid_table[k, i] := q;
        crc_braid_big_table[W - 1 - k, i] := Swap(q);
      }
    }

    /** x^(n 2^k) */
    method X2nmodp(n: nat, k: nat) returns (p: Word)
      requires Shape() && PowersMade(32)
      ensures p == XN(ONE, Shl(n, k))
    {
      hide XN, Mul, Shl, Pow2;
      var m, j := n, k;
      p := ONE;
      ghost var e: nat := 0;
      XNNone(ONE);
      while m != 0
        invariant p == XN(ONE, e) && e + Shl(m, j) == Shl(n, k)
      {
        ShlBit(m, j);
        if m % 2 == 1 {
          PowersRepeat(j);
          XNZero(ONE, Pow2(j % 32));
          PowerAdd(Pow2(j), e);
          p := Multmodp(x2n_table[j % 32], p);
          e := e + Pow2(j);
        }
        m := m / 2;
        j := j + 1;
      }
      Shl1(j);
    }

    /** One byte through the table. */
    method Next(crc: Word, b: byte) returns (r: Word)
      requires Valid()
      ensures r == XN(Add(crc, Value(b)), 8)
    {
      hide XN, Add, Value, Down8, Index;
      r := Add(Down8(crc), crc_table[Index(Add(crc, Value(b)))]);
      TableStep(Add(crc, Value(b)));
      DownByte(crc, b);
    }

    /** The CRC of the four bytes of a word, by itself. */
    method CrcWord(word: Word) returns (data: Word)
      requires Valid()
      ensures data == XN(word, 32)
    {
      hide XN, Add, Value, Down8, Index;
      data := word;
      XNNone(word);
      for k := 0 to W
        invariant data == XN(word, 8 * k)
      {
        TableStep(data);
        XNAdd(word, 8 * k, 8);
        data := Add(Down8(data), crc_table[Index(data)]);
      }
    }

    /** The same for a word whose first byte is the highest. */
    method CrcWordBig(word: Word) returns (data: Word)
      requires Valid()
      ensures data == Swap(XN(Swap(word), 32))
    {
      hide XN, Add, Value, Down8, Up8, Index, Swap, Low8, DownN;
      data := word;
      ghost var u := Swap(word);
      XNNone(u);
      SwapSwap(word);
      for k := 0 to W
        invariant data == Swap(XN(u, 8 * k))
      {
        var v := XN(u, 8 * k);
        TableStep(v);
        XNAdd(u, 8 * k, 8);
        SwapDown(v);
        SwapAdd(Down8(v), XN(Value(Index(v)), 8));
        SwapIndex(v, 3);
        DownSome(v);
        data := Add(Up8(data), crc_big_table[Index(DownN(data, W - 1))]);
      }
    }

    method BraidWordBig(word: Word) returns (crc: Word)
      requires Valid()
      ensures crc == Swap(XN(Swap(word), 160))
    {
      hide XN, Add, Value, Down8, Index, Low8, BytesMade, PowersMade, Swap, DownN;
      ghost var u := Swap(word);
      SwapSwap(word);
      DownAll(u);
      XNZero(ZERO, 128);
      AddZero(XN(Value(Index(DownN(u, 3))), 136));
      BraidTop(u, 3);
      SwapIndex(u, 0);
      DownSome(word);
      assert RowMade(3, 256);
      crc := crc_braid_big_table[0, Index(word)];
      for k := 1 to W
        invariant crc == Swap(XN(DownN(u, W - k), 160 - 8 * (W - k)))
      {
        BraidTop(u, 3 - k);
        SwapIndex(u, k);
        SwapAdd(XN(Value(Index(DownN(u, 3 - k))), 160 - 8 * (3 - k)), XN(DownN(u, W - k), 160 - 8 * (W - k)));
        AddComm(crc, Swap(XN(Value(Index(DownN(u, 3 - k))), 160 - 8 * (3 - k))));
        assert RowMade(3 - k, 256);
        crc := Add(crc, crc_braid_big_table[k, Index(DownN(word, k))]);
      }
      DownSome(u);
    }

    /** A word moved on by all N words, from the braiding tables. */
    method BraidWord(word: Word) returns (crc: Word)
      requires Valid()
      ensures crc == XN(word, 160)
    {
      hide XN, Add, Value, Down8, Index, Low8, BytesMade, PowersMade;
      assert RowMade(0, 256);
      crc := crc_braid_table[0, Index(word)];
      Split(word, 152);
      ValueIndex(word);
      for k := 1 to W
        invariant XN(word, 160) == Add(crc, XN(DownN(word, k), 160 - 8 * k))
      {
        var d := DownN(word, k);
        Split(d, 152 - 8 * k);
        ValueIndex(d);
        AddAssoc(crc, XN(Low8(d), 160 - 8 * k), XN(Down8(d), 152 - 8 * k));
        assert RowMade(k, 256);
        crc := Add(crc, crc_braid_table[k, Index(d)]);
      }
      DownAll(word);
      XNZero(ZERO, 128);
      AddZero(crc);
    }
  }

  lemma {:induction false} ShlNone(v: nat)
    ensures Shl(v, 0) == v
  {
  }

  /** After the last block: the registers combined. */
  method LastBlock(t: Tables, s: seq<byte>, c0: Word, c1: Word, c2: Word, c3: Word, c4: Word, ghost r: Word)
    returns (crc: Word)
    requires t.Valid() && |s| == N * W && XN(r, 160) == Sum5(c0, c1, c2, c3, c4)
    ensures crc == BitCrc(r, BytesBits(s))
  {
    hide XN, Add, WordAt, BitCrc, BytesBits, Sum5, t.Valid;
    crc := t.CrcWord(Add(c0, WordAt(s, 0)));
    crc := t.CrcWord(Add(Add(c1, WordAt(s, 1)), crc));
    crc := t.CrcWord(Add(Add(c2, WordAt(s, 2)), crc));
    crc := t.CrcWord(Add(Add(c3, WordAt(s, 3)), crc));
    crc := t.CrcWord(Add(Add(c4, WordAt(s, 4)), crc));
    BlockStep(r, s, c0, c1, c2, c3, c4);
    Sum5Chain(Add(c0, WordAt(s, 0)), Add(c1, WordAt(s, 1)), Add(c2, WordAt(s, 2)),
              Add(c3, WordAt(s, 3)), Add(c4, WordAt(s, 4)));
  }

  lemma {:induction false} BraidStart(crc: Word)
    ensures XN(crc, 160) == Sum5(crc, ZERO, ZERO, ZERO, ZERO)
  {
    hide XN, Add;
    XNZero(ZERO, 128);
    XNZero(ZERO, 96);
    XNZero(ZERO, 64);
    XNZero(ZERO, 32);
    AddZero(ZERO);
    AddZero(XN(crc, 160));
  }

  /** The blocks of a buffer from at on: N registers take turns at its words. */
  method Blocks(t: Tables, crc0: Word, buf: array<byte>, at: nat, blks0: nat) returns (crc: Word)
    requires t.Valid() && blks0 > 0 && at + N * W * blks0 <= buf.Length
    ensures crc == BitCrc(crc0, BytesBits(buf[at..at + N * W * blks0]))
  {
    hide XN, Add, WordAt, BitCrc, BytesBits, Sum5, t.Valid;
    var c0, c1, c2, c3, c4 := crc0, ZERO, ZERO, ZERO, ZERO;
    var words, blks := at, blks0 - 1;
    ghost var r := crc0;
    BraidStart(crc0);
    NoBits(crc0);
    assert buf[at..at] == [];
    while blks != 0
      invariant blks < blks0 && words == at + N * W * (blks0 - 1 - blks)
      invariant r == BitCrc(crc0, BytesBits(buf[at..words]))
      invariant XN(r, 160) == Sum5(c0, c1, c2, c3, c4)
    {
      ghost var s := buf[words..words + N * W];
      BlockStep(r, s, c0, c1, c2, c3, c4);
      var word0 := Add(c0, WordAt(buf[words..words + N * W], 0));
      var word1 := Add(c1, WordAt(buf[words..words + N * W], 1));
      var word2 := Add(c2, WordAt(buf[words..words + N * W], 2));
      var word3 := Add(c3, WordAt(buf[words..words + N * W], 3));
      var word4 := Add(c4, WordAt(buf[words..words + N * W], 4));
      Sum5Move(word0, word1, word2, word3, word4);
      NextBlock(crc0, buf[..], at, words);
      r := BitCrc(r, BytesBits(s));
      c0 := t.BraidWord(word0);
      c1 := t.BraidWord(word1);
      c2 := t.BraidWord(word2);
      c3 := t.BraidWord(word3);
      c4 := t.BraidWord(word4);
      words := words + N * W;
      blks := blks - 1;
    }
    NextBlock(crc0, buf[..], at, words);
    crc := LastBlock(t, buf[words..words + N * W], c0, c1, c2, c3, c4, r);
  }

  /** The jth word of a block on a machine of the other byte order. */
  function WordBig(s: seq<byte>, j: nat): Word
    requires 4 * j + 4 <= |s|
  {
    Swap(WordAt(s, j))
  }

  lemma {:induction false} SwapWord(c: Word, s: seq<byte>, j: nat)
    requires 4 * j + 4 <= |s|
    ensures Swap(Add(c, WordBig(s, j))) == Add(Swap(c), WordAt(s, j))
  {
    hide Swap, Add, WordAt;
    SwapAdd(c, Swap(WordAt(s, j)));
    SwapSwap(WordAt(s, j));
  }

  method LastBlockBig(t: Tables, s: seq<byte>, c0: Word, c1: Word, c2: Word, c3: Word, c4: Word, ghost r: Word)
    returns (comb: Word)
    requires t.Valid() && |s| == N * W && XN(r, 160) == Sum5(Swap(c0), Swap(c1), Swap(c2), Swap(c3), Swap(c4))
    ensures Swap(comb) == BitCrc(r, BytesBits(s))
  {
    hide XN, Add, WordAt, WordBig, BitCrc, BytesBits, Sum5, t.Valid, Swap;
    SwapWord(c0, s, 0);
    SwapWord(c1, s, 1);
    SwapWord(c2, s, 2);
    SwapWord(c3, s, 3);
    SwapWord(c4, s, 4);
    comb := t.CrcWordBig(Add(c0, WordBig(s, 0)));
    SwapSwap(XN(Add(Swap(c0), WordAt(s, 0)), 32));
    comb := NextBig(t, Add(c1, WordBig(s, 1)), comb);
    comb := NextBig(t, Add(c2, WordBig(s, 2)), comb);
    comb := NextBig(t, Add(c3, WordBig(s, 3)), comb);
    comb := NextBig(t, Add(c4, WordBig(s, 4)), comb);
    BlockStep(r, s, Swap(c0), Swap(c1), Swap(c2), Swap(c3), Swap(c4));
    Sum5Chain(Add(Swap(c0), WordAt(s, 0)), Add(Swap(c1), WordAt(s, 1)), Add(Swap(c2), WordAt(s, 2)),
              Add(Swap(c3), WordAt(s, 3)), Add(Swap(c4), WordAt(s, 4)));
  }

  method NextBig(t: Tables, word: Word, comb: Word) returns (r: Word)
    requires t.Valid()
    ensures Swap(r) == XN(Add(Swap(word), Swap(comb)), 32)
  {
    hide XN, Add, Swap, t.Valid;
    r := t.CrcWordBig(Add(word, comb));
    SwapAdd(word, comb);
    SwapSwap(XN(Add(Swap(word), Swap(comb)), 32));
  }

  method BlocksBig(t: Tables, crc0: Word, buf: array<byte>, at: nat, blks0: nat) returns (crc: Word)
    requires t.Valid() && blks0 > 0 && at + N * W * blks0 <= buf.Length
    ensures crc == BitCrc(crc0, BytesBits(buf[at..at + N * W * blks0]))
  {
    hide XN, Add, WordAt, WordBig, BitCrc, BytesBits, Sum5, t.Valid, Swap;
    var c0, c1, c2, c3, c4 := Swap(crc0), ZERO, ZERO, ZERO, ZERO;
    var words, blks := at, blks0 - 1;
    ghost var r := crc0;
    BraidStart(crc0);
    SwapSwap(crc0);
    NoBits(crc0);
    assert buf[at..at] == [];
    while blks != 0
      invariant blks < blks0 && words == at + N * W * (blks0 - 1 - blks)
      invariant r == BitCrc(crc0, BytesBits(buf[at..words]))
      invariant XN(r, 160) == Sum5(Swap(c0), Swap(c1), Swap(c2), Swap(c3), Swap(c4))
    {
      ghost var s := buf[words..words + N * W];
      ghost var k, d0, d1, d2, d3, d4 := r, c0, c1, c2, c3, c4;
      NextBlock(crc0, buf[..], at, words);
      r := BitCrc(r, BytesBits(s));
      c0 := t.BraidWordBig(Add(c0, WordBig(buf[words..words + N * W], 0)));
      c1 := t.BraidWordBig(Add(c1, WordBig(buf[words..words + N * W], 1)));
      c2 := t.BraidWordBig(Add(c2, WordBig(buf[words..words + N * W], 2)));
      c3 := t.BraidWordBig(Add(c3, WordBig(buf[words..words + N * W], 3)));
      c4 := t.BraidWordBig(Add(c4, WordBig(buf[words..words + N * W], 4)));
      words := words + N * W;
      blks := blks - 1;
      BlockBig(k, s, d0, d1, d2, d3, d4);
    }
    NextBlock(crc0, buf[..], at, words);
    var comb := LastBlockBig(t, buf[words..words + N * W], c0, c1, c2, c3, c4, r);
    crc := Swap(comb);
  }

  lemma {:induction false} BlockBig(r: Word, s: seq<byte>, c0: Word, c1: Word, c2: Word, c3: Word, c4: Word)
    requires |s| == N * W && XN(r, 160) == Sum5(Swap(c0), Swap(c1), Swap(c2), Swap(c3), Swap(c4))
    ensures XN(BitCrc(r, BytesBits(s)), 160)
         == Sum5(BraidedBig(c0, s, 0), BraidedBig(c1, s, 1), BraidedBig(c2, s, 2), BraidedBig(c3, s, 3),
             BraidedBig(c4, s, 4))
  {
    hide XN, Add, WordAt, WordBig, BitCrc, BytesBits, Sum5, Swap;
    BlockStep(r, s, Swap(c0), Swap(c1), Swap(c2), Swap(c3), Swap(c4));
    Sum5Move(Add(Swap(c0), WordAt(s, 0)), Add(Swap(c1), WordAt(s, 1)), Add(Swap(c2), WordAt(s, 2)),
             Add(Swap(c3), WordAt(s, 3)), Add(Swap(c4), WordAt(s, 4)));
    BraidedIs(c0, s, 0);
    BraidedIs(c1, s, 1);
    BraidedIs(c2, s, 2);
    BraidedIs(c3, s, 3);
    BraidedIs(c4, s, 4);
  }

  ghost function BraidedBig(c: Word, s: seq<byte>, j: nat): Word
    requires 4 * j + 4 <= |s|
  {
    Swap(Swap(XN(Swap(Add(c, WordBig(s, j))), 160)))
  }

  lemma {:induction false} BraidedIs(c: Word, s: seq<byte>, j: nat)
    requires 4 * j + 4 <= |s|
    ensures BraidedBig(c, s, j) == XN(Add(Swap(c), WordAt(s, j)), 160)
  {
    hide XN, Add, WordAt, WordBig, Swap;
    SwapWord(c, s, j);
    SwapSwap(XN(Add(Swap(c), WordAt(s, j)), 160));
  }

  lemma {:induction false} NextBlock(s: Word, data: seq<byte>, at: nat, i: nat)
    requires at <= i <= i + N * W <= |data|
    ensures data[at..i + N * W] == data[at..i] + data[i..i + N * W]
    ensures BitCrc(s, BytesBits(data[at..i + N * W]))
         == BitCrc(BitCrc(s, BytesBits(data[at..i])), BytesBits(data[i..i + N * W]))
  {
    hide BitCrc, BytesBits;
    assert data[at..i + N * W] == data[at..i] + data[i..i + N * W];
    BytesBitsConcat(data[at..i], data[i..i + N * W]);
    BitCrcConcat(s, BytesBits(data[at..i]), BytesBits(data[i..i + N * W]));
  }

  /** The CRC of a buffer at an address: bytes up to a word boundary, blocks of N words, and the
      bytes that are left, whatever the address and the order of the bytes in a word. */
  method Crc32Z(t: Tables, crc0: Word, buf: array?<byte>, addr: nat, littleEndian: bool) returns (r: Word)
    requires t.Valid()
    ensures r == if buf == null then ZERO else Crc(crc0, buf[..])
  {
    hide XN, Add, Value, BitCrc, BytesBits, t.Valid;
    if buf == null {
      return ZERO;
    }
    ghost var s := Not(crc0);
    var crc, i := Not(crc0), 0;
    NoBits(s);
    assert buf[..0] == [];
    if buf.Length >= N * W + W - 1 {
      while i < buf.Length && (addr + i) % W != 0
        invariant i < W && (i > 0 ==> addr % W > 0 && i <= W - addr % W)
        invariant crc == BitCrc(s, BytesBits(buf[..i]))
      {
        NextByte(s, buf[..], i);
        assert buf[..][..i] == buf[..i] && buf[..][..i + 1] == buf[..i + 1];
        crc := t.Next(crc, buf[i]);
        i := i + 1;
      }
      var blks := (buf.Length - i) / (N * W);
      NextBytes(s, buf[..], i, i + N * W * blks);
      assert buf[..][..i] == buf[..i] && buf[..][..i + N * W * blks] == buf[..i + N * W * blks];
      assert buf[..][i..i + N * W * blks] == buf[i..i + N * W * blks];
      if littleEndian {
        crc := Blocks(t, crc, buf, i, blks);
      } else {
        crc := BlocksBig(t, crc, buf, i, blks);
      }
      i := i + N * W * blks;
    }
    while i < buf.Length
      invariant i <= buf.Length && crc == BitCrc(s, BytesBits(buf[..i]))
    {
      NextByte(s, buf[..], i);
      assert buf[..][..i] == buf[..i] && buf[..][..i + 1] == buf[..i + 1];
      crc := t.Next(crc, buf[i]);
      i := i + 1;
    }
    assert buf[..i] == buf[..];
    r := Not(crc);
  }

  /** The CRC of two pieces from those of each: the first is moved on over the length of the
      second. */
  method Combine(t: Tables, crc1: Word, crc2: Word, len2: nat) returns (r: Word)
    requires t.Valid()
    ensures r == Add(XN(crc1, 8 * len2), crc2)
    ensures forall c, a, b :: |b| == len2 && crc1 == Crc(c, a) && crc2 == Crc(ZERO, b) ==> r == Crc(c, a + b)
  {
    hide XN, Add, Mul, Shl, Crc;
    var p := t.X2nmodp(len2, 3);
    ShlEight(len2);
    XNZero(ONE, 8 * len2);
    MulPower(8 * len2, crc1);
    var q := Multmodp(p, crc1);
    r := Add(q, crc2);
    forall c, a, b | |b| == len2 && crc1 == Crc(c, a) && crc2 == Crc(ZERO, b)
      ensures r == Crc(c, a + b)
    {
      CrcCombines(c, a, b);
    }
  }

  lemma {:induction false} ShlEight(n: nat)
    ensures Shl(n, 3) == 8 * n
  {
    assert Shl(n, 3) == 2 * Shl(n, 2) == 2 * (2 * Shl(n, 1));
  }

  /** The CRC of two pieces. */
  lemma {:induction false} CrcCombines(c: Word, a: seq<byte>, b: seq<byte>)
    ensures Crc(c, a + b) == Add(XN(Crc(c, a), 8 * |b|), Crc(ZERO, b))
  {
    hide XN, Add, BitCrc, BytesBits;
    var m, n := Crc(c, a), 8 * |b|;
    CrcConcat(c, a, b);
    assert Crc(m, b) == Not(BitCrc(Add(m, ALL), BytesBits(b)));
    BitCrcLinear(m, ALL, BytesBits(b));
    AddAssoc(XN(m, n), BitCrc(ALL, BytesBits(b)), ALL);
    AddZero(ALL);
  }

  /** The complement of a CRC is the remainder of the data, with the start beside its first bits,
      divided by p(x); and nothing else is. */
  lemma {:induction false} CrcIsRemainder(crc: Word, data: seq<byte>, w: Word)
    ensures Crc(crc, data) == Not(w)
       <==> exists q :: Same(Dividend(Not(crc), BytesBits(data)), PolyAdd(PolyMul(q, P()), Poly(w)))
  {
    hide BitCrc, BytesBits, Not, Dividend, PolyAdd, PolyMul, P, Poly, Same;
    RegisterDivides(Not(crc), BytesBits(data), w);
    NotNot(w);
    NotNot(BitCrc(Not(crc), BytesBits(data)));
  }
}
