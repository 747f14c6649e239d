/** The tables and fields of DEFLATE, said a second time and in another way: laws of the numbers that
    coder and decoder share (sections 3.2.3 to 3.2.7 of RFC 1951), and streams as any other
    implementation of the format writes them. */
module FormatLaws {
  import opened Bits
  import opened Canonical
  import opened Blocks
  import opened Streams
  import opened Covers
  import opened CodeTables
  import CL = CodeLengths
  import InfTrees
  import R = Rfc1951

  // ---- lengths and distances ----

  /** After eight single lengths there are four codes for each number of extra bits, and the longest
      match has a code of its own. */
  lemma {:induction false} LengthTable(c: nat)
    requires c < 29
    ensures c < 8 ==> R.LengthExtra(c) == 0 && R.LengthBase(c) == 3 + c
    ensures 8 <= c < 28 ==>
              R.LengthExtra(c) == c / 4 - 1 && R.LengthBase(c) == 3 + (4 + c % 4) * Pow2(c / 4 - 1)
    ensures c == 28 ==> R.LengthExtra(c) == 0 && R.LengthBase(c) == 258
  {
    hide Pow2;
    Powers();
    assert R.LengthExtra(c) == [0, 0, 0, 0, 0, 0, 0, 0, 1, 1, 1, 1, 2, 2, 2, 2,
                                3, 3, 3, 3, 4, 4, 4, 4, 5, 5, 5, 5, 0][c];
  }

  /** After two single distances there are two codes for each number of extra bits. */
  lemma {:induction false} DistTable(c: nat)
    requires c < 30
    ensures c < 2 ==> R.DistExtra(c) == 0 && R.DistBase(c) == 1 + c
    ensures c >= 2 ==> R.DistExtra(c) == c / 2 - 1 && R.DistBase(c) == 1 + (2 + c % 2) * Pow2(c / 2 - 1)
  {
    hide Pow2;
    Powers();
  }

  lemma {:induction false} Powers()
    ensures Pow2(0) == 1 && Pow2(1) == 2 && Pow2(2) == 4 && Pow2(3) == 8 && Pow2(4) == 16 && Pow2(5) == 32
    ensures Pow2(6) == 64 && Pow2(7) == 128 && Pow2(8) == 256 && Pow2(9) == 512 && Pow2(10) == 1024
    ensures Pow2(11) == 2048 && Pow2(12) == 4096 && Pow2(13) == 8192
  {
    assert Pow2(5) == 32;
    assert Pow2(9) == 512;
  }

  // ---- the code length code ----

  /** The lengths of the code length code travel in this order: the three repeats, zero, and then out
      from 8 to both sides. */
  lemma {:induction false} TransmissionOrder(i: nat)
    requires i < 19
    ensures R.Order(i) == if i < 3 then 16 + i
                          else if i == 3 then 0
                          else if i % 2 == 0 then 8 + (i - 4) / 2
                          else 8 - (i - 3) / 2
  {
  }

  // ---- the fixed codes ----

  /** The lengths of the fixed literal and length code. */
  lemma {:induction false} FixedLengths(s: nat)
    requires s < 288
    ensures |StaticL()| == 288
    ensures StaticL()[s] == if s <= 143 then 8 else if s <= 255 then 9 else if s <= 279 then 7 else 8
  {
  }

  lemma {:induction false} FixedFirst()
    ensures var c := Counts(StaticL());
            FirstCode(c, 7) == 0 && FirstCode(c, 8) == 48 && FirstCode(c, 9) == 400
    ensures FirstCode(Counts(StaticD()), 5) == 0
  {
    hide R.FixedLens, R.Fill, Count;
    forall l | 0 <= l <= 9
      ensures Counts(StaticL())[l] == if l == 7 then 24 else if l == 8 then 152 else if l == 9 then 112 else 0
      ensures Counts(StaticD())[l] == if l == 5 then 32 else 0
    {
      R.FixedCounts(l);
    }
    var c, d := Counts(StaticL()), Counts(StaticD());
    assert FirstCode(c, 4) == 0 == FirstCode(d, 4);
    assert FirstCode(c, 7) == 0;
  }

  lemma {:induction false} FixedBefore(s: nat)
    requires s < 288
    ensures var n := Count(StaticL()[..s], StaticL()[s]);
            n == if s <= 143 then s else if s <= 255 then s - 144 else if s <= 279 then s - 256 else s - 136
  {
    hide Count;
    var a, b, c := R.Fill(144, 8), R.Fill(112, 9), R.Fill(24, 7);
    var l := StaticL()[s];
    FixedLengths(s);
    if s <= 143 {
      assert StaticL()[..s] == R.Fill(s, 8);
      R.CountFill(s, 8, l);
    } else if s <= 255 {
      assert StaticL()[..s] == a + R.Fill(s - 144, 9);
      CountConcat(a, R.Fill(s - 144, 9), l);
      R.CountFill(144, 8, l);
      R.CountFill(s - 144, 9, l);
    } else if s <= 279 {
      assert StaticL()[..s] == a + b + R.Fill(s - 256, 7);
      CountConcat(a + b, R.Fill(s - 256, 7), l);
      CountConcat(a, b, l);
      R.CountFill(144, 8, l);
      R.CountFill(112, 9, l);
      R.CountFill(s - 256, 7, l);
    } else {
      assert StaticL()[..s] == a + b + c + R.Fill(s - 280, 8);
      CountConcat(a + b + c, R.Fill(s - 280, 8), l);
      CountConcat(a + b, c, l);
      CountConcat(a, b, l);
      R.CountFill(144, 8, l);
      R.CountFill(112, 9, l);
      R.CountFill(24, 7, l);
      R.CountFill(s - 280, 8, l);
    }
  }

  /** The code words of the fixed codes, as section 3.2.6 of RFC 1951 lists them. */
  lemma {:induction false} FixedCodes(s: nat)
    requires s < 288
    ensures |StaticL()| == 288 && StaticL()[s] <= MAXBITS
    ensures CodeBits(StaticL(), s) == if s <= 143 then MsbBits(0x30 + s, 8)
                                      else if s <= 255 then MsbBits(0x190 + s - 144, 9)
                                      else if s <= 279 then MsbBits(s - 256, 7)
                                      else MsbBits(0xc0 + s - 280, 8)
  {
    hide Count, Counts, FirstCode, MsbBits, R.FixedLens;
    FixedLengths(s);
    FixedFirst();
    FixedBefore(s);
  }

  lemma {:induction false} FixedDistCodes(s: nat)
    requires s < 30
    ensures |StaticD()| == 32 && StaticD()[s] == 5 && CodeBits(StaticD(), s) == MsbBits(s, 5)
  {
    hide Count, Counts, FirstCode, MsbBits;
    FixedFirst();
    assert StaticD()[..s] == R.Fill(s, 5);
    R.CountFill(s, 5, 5);
  }

  // ---- the fields ----

  /** A stored block is taken exactly if the second length is the complement of the first. */
  lemma {:induction false} StoredLengths(c: R.Cfg, len: nat, nlen: nat, rest: seq<bool>)
    requires c.mode.Stored? && len < 0x1_0000 && nlen < 0x1_0000 && c.inp == ToBits(len, 16) + ToBits(nlen, 16) + rest
    ensures R.Valid(c)
    ensures R.Step(c) == R.Some(if len == 0xffff - nlen then c.(mode := R.Copy(len), inp := rest)
                                else c.(mode := R.Bad(R.InvalidStoredLengths), inp := []))
  {
    hide ToBits, R.Peek, Pow2;
    assert Pow2(16) == 0x1_0000 by { Sixteen(); }
    assert c.inp == ToBits(len, 16) + (ToBits(nlen, 16) + rest);
    CL.PeekField(len, 16, ToBits(nlen, 16) + rest);
    CL.PeekField(nlen, 16, rest);
    assert c.inp[32..] == rest && c.inp[16..] == ToBits(nlen, 16) + rest;
  }

  lemma {:induction false} Sixteen()
    ensures Pow2(16) == 0x1_0000
  {
    assert Pow2(8) == 256;
  }

  /** The two bits of a block type, the low one first. */
  lemma {:induction false} BlockTypes(c: R.Cfg, last: bool, low: bool, high: bool, rest: seq<bool>)
    requires c.mode.Type? && !c.last && c.inp == [last, low, high] + rest
    ensures R.Valid(c)
    ensures R.Step(c) == R.Some(
      if !low && !high then c.(mode := R.Stored, last := last, inp := R.Aligned(rest))
      else if low && !high then
        c.(mode := R.Len, last := last, ll := R.FixedLens(InfTrees.LENS), dl := R.FixedLens(InfTrees.DISTS),
           inp := rest)
      else if !low then c.(mode := R.Table, last := last, inp := rest)
      else c.(mode := R.Bad(R.InvalidBlockType), last := last, inp := []))
  {
    hide R.FixedLens, R.Aligned;
    assert c.inp[1..][..2] == [low, high] && c.inp[3..] == rest;
    assert FromBits([low, high]) == (if low then 1 else 0) + 2 * FromBits([high]);
    assert FromBits([high]) == if high then 1 else 0;
  }

  /** The counts of a dynamic block, and the two that have limits. */
  lemma {:induction false} TableCounts(c: R.Cfg, x: nat, y: nat, z: nat, rest: seq<bool>)
    requires c.mode.Table? && x < 32 && y < 32 && z < 16
    requires c.inp == ToBits(x, 5) + ToBits(y, 5) + ToBits(z, 4) + rest
    ensures R.Valid(c)
    ensures R.Step(c) == R.Some(if x > 29 || y > 29 then c.(mode := R.Bad(R.TooManySymbols), inp := [])
                                else c.(mode := R.LenLens(257 + x, 1 + y, 4 + z, []), inp := rest))
  {
    hide ToBits, R.Peek;
    CL.CountFields(x, y, z, c.inp, rest);
  }

  /** The repeats of code lengths: 3 to 6 times the last one, 3 to 10 zeros, 11 to 138 zeros. */
  lemma {:induction false} Repeats(c: R.Cfg, s: nat, n: nat, x: nat, rest: seq<bool>)
    requires c.mode.CodeLens? && 16 <= s <= 18 && n <= |c.inp|
    requires x < (if s == 16 then 4 else if s == 17 then 8 else 128)
    requires c.inp[n..] == ToBits(x, if s == 16 then 2 else if s == 17 then 3 else 7) + rest
    ensures n + R.RepeatBits(s) <= |c.inp|
    ensures var m := c.mode;
            var k := if s == 18 then 11 + x else 3 + x;
            R.RepeatLens(c, s, n)
            == if (s == 16 && m.lens == []) || |m.lens| + k > m.nlen + m.ndist
               then c.(mode := R.Bad(R.InvalidRepeat), inp := [])
               else c.(mode := m.(lens := m.lens + seq(k, i => if s == 16 then m.lens[|m.lens| - 1] else 0)),
                       inp := rest)
  {
    hide ToBits, R.Peek, Pow2;
    Powers();
    var b := if s == 16 then 2 else if s == 17 then 3 else 7;
    CL.PeekField(x, b, rest);
    assert c.inp[n + b..] == c.inp[n..][b..];
  }

  // ---- streams of any other implementation ----

  /** Ten times the letter a, as zlib and others compress it. */
  lemma {:induction false} TenLetters() returns (d: R.Cfg)
    ensures R.Reaches(Streams.Start(BytesBits([0x4b, 0x4c, 0x84, 0x01, 0x00])), d) && d.mode.Done? && d.inp == []
    ensures d.out == [97, 97, 97, 97, 97, 97, 97, 97, 97, 97]
  {
    hide R.Reaches, FormOk, FormFits, Produced, BlockBits, BytesBits, Padding, Readable;
    LettersFit();
    LettersBits();
    d := ReadOne(Static([Literal(97), Literal(97), Match(8, 1)]));
  }

  /** A stream of one block. */
  lemma {:induction false} ReadOne(f: Form) returns (d: R.Cfg)
    requires Readable(f) && FormFits(f, [])
    ensures FormOk(f)
    ensures R.Reaches(Streams.Start(BlockBits(f, true, 0) + Padding(|BlockBits(f, true, 0)|)), d)
    ensures d.mode.Done? && d.inp == [] && d.out == Produced(f, [])
  {
    hide R.Reaches, FormFits, Produced, BlockBits, Padding;
    var bs := [Block(f, true)];
    var front: seq<Block> := [];
    assert bs[..0] == front;
    assert StreamBits(front) == [] && Plain(front) == [];
    assert StreamBits(bs) == BlockBits(f, true, 0) + Padding(|BlockBits(f, true, 0)|);
    d := ReadClosed(bs);
  }

  lemma {:induction false} LettersFit()
    ensures var ts := [Literal(97), Literal(97), Match(8, 1)];
            FormFits(Static(ts), []) && Produced(Static(ts), []) == [97, 97, 97, 97, 97, 97, 97, 97, 97, 97]
  {
    hide R.Extend, AllFit, ApplyAll;
    var none: seq<byte>, a: seq<Token> := [], [];
    NoTokensFit(none);
    CoverMore(none, a, Literal(97));
    assert a + [Literal(97)] == [Literal(97)];
    CoverMore(none, [Literal(97)], Literal(97));
    assert [Literal(97)] + [Literal(97)] == [Literal(97), Literal(97)];
    CoverMore(none, [Literal(97), Literal(97)], Match(8, 1));
    var ts := [Literal(97), Literal(97)] + [Match(8, 1)];
    assert ts == [Literal(97), Literal(97), Match(8, 1)];
    assert ApplyAll(none, [Literal(97), Literal(97)]) == [97, 97];
    R.ExtendIs([97, 97], 1, 8, [97, 97, 97, 97, 97, 97, 97, 97, 97, 97]);
  }

  lemma {:induction false} NoTokensFit(out: seq<byte>)
    ensures AllFit(out, []) && ApplyAll(out, []) == out
  {
  }

  lemma {:induction false} OneToken(ll: seq<nat>, dl: seq<nat>, ts: seq<Token>, t: Token)
    requires AllSendable(ll, dl, ts) && Sendable(ll, dl, t)
    ensures AllSendable(ll, dl, ts + [t])
    ensures TokensBits(ll, dl, ts + [t]) == TokensBits(ll, dl, ts) + TokenBits(ll, dl, t)
  {
    assert (ts + [t])[..|ts|] == ts;
  }

  lemma {:induction false} LetterCodes()
    ensures |StaticL()| == 288 && StaticL()[97] == 8 && StaticL()[256] == 7 && StaticL()[262] == 7
    ensures |StaticD()| == 32 && StaticD()[0] == 5
    ensures CodeBits(StaticL(), 97) == [true, false, false, true, false, false, false, true]
    ensures CodeBits(StaticL(), 256) == [false, false, false, false, false, false, false]
    ensures CodeBits(StaticL(), 262) == [false, false, false, false, true, true, false]
    ensures CodeBits(StaticD(), 0) == [false, false, false, false, false]
  {
    hide CodeBits, StaticL, StaticD, MsbBits;
    FixedLengths(97);
    FixedLengths(256);
    FixedLengths(262);
    FixedCodes(97);
    FixedCodes(256);
    FixedCodes(262);
    FixedDistCodes(0);
    LetterA();
    LettersEnd();
    EightLetters();
  }

  lemma {:induction false} LetterA()
    ensures MsbBits(145, 8) == [true, false, false, true, false, false, false, true]
  {
  }

  lemma {:induction false} LettersEnd()
    ensures MsbBits(0, 7) == [false, false, false, false, false, false, false]
    ensures MsbBits(0, 5) == [false, false, false, false, false]
  {
  }

  lemma {:induction false} EightLetters()
    ensures MsbBits(6, 7) == [false, false, false, false, true, true, false]
  {
  }

  lemma {:induction false} SymbolsOfLetters()
    ensures LengthSymbol(Literal(97)) == 97 && LengthSymbol(Match(8, 1)) == 262 && DistSymbol(Match(8, 1)) == 0
    ensures LengthExtraBits(8) == [] && DistExtraBits(1) == []
  {
    hide R.LengthBase, R.LengthExtra, R.DistBase, R.DistExtra, LenCode, DistCode;
    LengthTable(5);
    DistTable(0);
    Powers();
    LenCodeIs(5, 5);
    DistCodeIs(0, 0);
  }

  /** The bits of the two letters, the match and the end. */
  lemma {:induction false} LettersBody()
    ensures var ts := [Literal(97), Literal(97), Match(8, 1)];
            && AllSendable(StaticL(), StaticD(), ts) && Used(StaticL(), 256)
            && BodyBits(StaticL(), StaticD(), ts)
               == [true, false, false, true, false, false, false, true]
                  + [true, false, false, true, false, false, false, true]
                  + ([false, false, false, false, true, true, false] + [false, false, false, false, false])
                  + [false, false, false, false, false, false, false]
  {
    hide StaticL, StaticD, CodeBits, TokensBits, AllSendable, LengthSymbol, DistSymbol, LengthExtraBits, DistExtraBits;
    var ll, dl := StaticL(), StaticD();
    LetterCodes();
    SymbolsOfLetters();
    var none: seq<Token> := [];
    NoTokensSent(ll, dl);
    OneToken(ll, dl, none, Literal(97));
    assert none + [Literal(97)] == [Literal(97)];
    OneToken(ll, dl, [Literal(97)], Literal(97));
    assert [Literal(97)] + [Literal(97)] == [Literal(97), Literal(97)];
    OneToken(ll, dl, [Literal(97), Literal(97)], Match(8, 1));
    assert [Literal(97), Literal(97)] + [Match(8, 1)] == [Literal(97), Literal(97), Match(8, 1)];
  }

  lemma {:induction false} NoTokensSent(ll: seq<nat>, dl: seq<nat>)
    ensures AllSendable(ll, dl, []) && TokensBits(ll, dl, []) == []
  {
  }

  lemma {:induction false} LettersBits()
    ensures var f := Static([Literal(97), Literal(97), Match(8, 1)]);
            && FormOk(f) && Readable(f)
            && BlockBits(f, true, 0) + Padding(|BlockBits(f, true, 0)|) == BytesBits([0x4b, 0x4c, 0x84, 0x01, 0x00])
  {
    hide StaticL, StaticD, BodyBits, AllSendable, BytesBits, ToBits, Padding;
    LettersBody();
    Three();
    TwoZeros();
    LettersBytes();
    LettersRegroup();
  }

  lemma {:induction false} LettersRegroup()
    ensures [true, true, false]
            + ([true, false, false, true, false, false, false, true]
               + [true, false, false, true, false, false, false, true]
               + ([false, false, false, false, true, true, false] + [false, false, false, false, false])
               + [false, false, false, false, false, false, false])
            + [false, false]
         == [true, true, false, true, false, false, true, false] + [false, false, true, true, false, false, true, false]
            + [false, false, true, false, false, false, false, true]
            + [true, false, false, false, false, false, false, false]
            + [false, false, false, false, false, false, false, false]
  {
  }

  lemma {:induction false} Three()
    ensures ToBits(3, 3) == [true, true, false]
  {
  }

  lemma {:induction false} TwoZeros()
    ensures Padding(38) == [false, false]
  {
  }

  lemma {:induction false} LettersBytes()
    ensures BytesBits([0x4b, 0x4c, 0x84, 0x01, 0x00])
         == [true, true, false, true, false, false, true, false] + [false, false, true, true, false, false, true, false]
            + [false, false, true, false, false, false, false, true]
            + [true, false, false, false, false, false, false, false]
            + [false, false, false, false, false, false, false, false]
  {
    hide ToBits;
    var s: seq<byte> := [0x4b, 0x4c, 0x84, 0x01, 0x00];
    FirstByte(s);
    FirstByte(s[1..]);
    FirstByte(s[2..]);
    FirstByte(s[3..]);
    FirstByte(s[4..]);
    assert s[1..][1..] == s[2..] && s[2..][1..] == s[3..] && s[3..][1..] == s[4..] && s[4..][1..] == [];
    LetterByte1();
    LetterByte2();
    LetterByte3();
    LetterByte4();
    LetterByte5();
  }

  lemma {:induction false} LetterByte1()
    ensures ToBits(0x4b, 8) == [true, true, false, true, false, false, true, false]
  {
  }

  lemma {:induction false} LetterByte2()
    ensures ToBits(0x4c, 8) == [false, false, true, true, false, false, true, false]
  {
  }

  lemma {:induction false} LetterByte3()
    ensures ToBits(0x84, 8) == [false, false, true, false, false, false, false, true]
  {
  }

  lemma {:induction false} LetterByte4()
    ensures ToBits(1, 8) == [true, false, false, false, false, false, false, false]
  {
  }

  lemma {:induction false} LetterByte5()
    ensures ToBits(0, 8) == [false, false, false, false, false, false, false, false]
  {
  }

  // ---- the header of a dynamic block of any other implementation ----

  /** 255 literals of eight bits, one of nine, and the end of the block with nine. */
  function PlainLengths(): (ll: seq<nat>)
    ensures |ll| == 257
  {
    R.Fill(255, 8) + [9, 9]
  }

  /** Lengths 8, 1 and 9, in one and two bits. */
  function PlainCode(): (bl: seq<nat>)
    ensures |bl| == 19
  {
    [0, 2, 0, 0, 0, 0, 0, 0, 1, 2, 0, 0, 0, 0, 0, 0, 0, 0, 0]
  }

  /** The lengths of the code length code: eighteen of them, but for three all zero. */
  function PlainFields(): seq<bool> {
    var z := [false, false, false];
    z + z + z + z + [true, false, false] + z + [false, true, false] + z + z + z + z + z + z + z + z + z + z
    + [false, true, false]
  }

  /** Bit by bit, a header without repeats: counts 0, 0 and 14, then the fields, then 255 times
      length 8, twice length 9, and once length 1. */
  function PlainHeader(): seq<bool> {
    [false, false, false, false, false] + [false, false, false, false, false] + [false, true, true, true]
    + PlainFields() + (seq(255, i => false) + [true, true] + [true, true] + [true, false])
  }

  /** What these bits announce. */
  lemma {:induction false} KnownHeader(c: R.Cfg, rest: seq<bool>) returns (d: R.Cfg)
    requires c.mode.Table? && c.inp == PlainHeader() + rest
    ensures R.Reaches(c, d) && d == c.(mode := R.Len, ll := PlainLengths(), dl := [1], inp := rest)
  {
    hide R.Reaches, R.Valid, PlainFields, PlainLengths, PlainCode, R.Step, R.GoodLengthCode, R.Usable, LensOk, ToBits;
    var ops := seq(255, i => false) + [true, true] + [true, true] + [true, false];
    var b := ops + rest;
    CountBits();
    TableValid(c);
    var bl := PlainCode();
    PlainFieldsAre();
    assert c.inp == ToBits(0, 5) + ToBits(0, 5) + ToBits(14, 4) + (CL.LengthFields(bl, 18) + b);
    CL.ReadCounts(c, 257, 1, 18, CL.LengthFields(bl, 18) + b);
    var c1 := c.(mode := R.LenLens(257, 1, 18, []), inp := CL.LengthFields(bl, 18) + b);
    PlainCodeIs();
    CL.ReadFields(c1, bl, 18, 18, b);
    var c2 := c1.(mode := c1.mode.(cl := CL.Ordered(bl, 18)), inp := b);
    R.ReachesTrans(c, c1, c2);
    PlainStart(c2);
    var c3 := c2.(mode := R.CodeLens(257, 1, bl, []));
    R.ReachesTrans(c, c2, c3);
    d := PlainRead(c3, rest);
    R.ReachesTrans(c, c3, d);
  }

  lemma {:induction false} TableValid(c: R.Cfg)
    requires c.mode.Table?
    ensures R.Valid(c)
  {
  }

  lemma {:induction false} CountBits()
    ensures ToBits(0, 5) == [false, false, false, false, false] && ToBits(14, 4) == [false, true, true, true]
  {
  }

  lemma {:induction false} ThreeBits()
    ensures ToBits(0, 3) == [false, false, false] && ToBits(1, 3) == [true, false, false]
    ensures ToBits(2, 3) == [false, true, false]
  {
  }

  lemma {:induction false} PlainOrder(i: nat)
    requires i < 19
    ensures PlainCode()[R.Order(i)] == if i == 4 then 1 else if i == 6 || i == 17 then 2 else 0
  {
    hide R.Order;
    TransmissionOrder(i);
  }

  lemma {:induction false} PlainFieldsAre()
    ensures CL.LengthFields(PlainCode(), 18) == PlainFields()
  {
    hide ToBits, PlainCode, CL.LengthFields;
    ThreeBits();
    var bl := PlainCode();
    var z := [false, false, false];
    FieldOne(0);
    FieldOne(1);
    FieldOne(2);
    FieldOne(3);
    FieldOne(4);
    FieldOne(5);
    FieldOne(6);
    FieldOne(7);
    FieldOne(8);
    FieldOne(9);
    FieldOne(10);
    FieldOne(11);
    FieldOne(12);
    FieldOne(13);
    FieldOne(14);
    FieldOne(15);
    FieldOne(16);
    FieldOne(17);
    FieldNone();
    var none: seq<bool> := [];
    assert none + z == z;
  }

  lemma {:induction false} FieldNone()
    ensures CL.LengthFields(PlainCode(), 0) == []
  {
  }

  lemma {:induction false} FieldOne(i: nat)
    requires i < 19
    ensures CL.LengthFields(PlainCode(), i + 1) == CL.LengthFields(PlainCode(), i)
                + ToBits(if i == 4 then 1 else if i == 6 || i == 17 then 2 else 0, 3)
  {
    hide ToBits, R.Order, PlainCode;
    PlainOrder(i);
  }

  lemma {:induction false} PlainCodeIs()
    ensures R.GoodLengthCode(PlainCode()) && (forall i :: 0 <= i < 19 ==> PlainCode()[i] <= 7)
    ensures forall i :: 18 <= i < 19 ==> PlainCode()[R.Order(i)] == 0
  {
    hide Count, Shl, R.Order;
    PlainOrder(18);
    PlainCounts();
    var c := Counts(PlainCode());
    KraftFlat(c, 2, MAXBITS);
    assert Kraft(c, 2) == Shl(1, 14) + Shl(2, 13) by { assert Kraft(c, 0) == 0; }
    Spaces();
  }

  lemma {:induction false} Spaces()
    ensures Shl(1, 14) == 16384 && Shl(2, 13) == 16384 && Pow2(MAXBITS) == 32768
    ensures Shl(255, 7) == 32640 && Shl(2, 6) == 128
  {
  }

  lemma {:induction false} PlainCounts()
    ensures forall l: nat ::
      Count(PlainCode(), l) == if l == 0 then 16 else if l == 1 then 1 else if l == 2 then 2 else 0
    ensures Count(PlainCode()[..8], 1) == 0 && Count(PlainCode()[..1], 2) == 0 && Count(PlainCode()[..9], 2) == 1
  {
    forall l: nat
      ensures Count(PlainCode(), l) == if l == 0 then 16 else if l == 1 then 1 else if l == 2 then 2 else 0
    {
      hide Count, R.Fill;
      CountParts(l);
    }
    CountParts(1);
    CountParts(2);
  }

  /** The code length code, piece by piece. */
  lemma {:induction false} CountParts(l: nat)
    ensures Count(PlainCode()[..1], l) == if l == 0 then 1 else 0
    ensures Count(PlainCode()[..8], l) == if l == 0 then 7 else if l == 2 then 1 else 0
    ensures Count(PlainCode()[..9], l) == if l == 0 then 7 else if l == 1 || l == 2 then 1 else 0
    ensures Count(PlainCode(), l) == if l == 0 then 16 else if l == 1 then 1 else if l == 2 then 2 else 0
  {
    hide Count;
    var bl := PlainCode();
    assert bl[..1] == R.Fill(1, 0);
    assert bl[..2] == bl[..1] + [2];
    assert bl[..8] == bl[..2] + R.Fill(6, 0);
    assert bl[..9] == bl[..8] + [1];
    assert bl[..10] == bl[..9] + [2];
    assert bl == bl[..10] + R.Fill(9, 0);
    R.CountFill(1, 0, l);
    R.CountFill(6, 0, l);
    R.CountFill(9, 0, l);
    CountSingle(1, l);
    CountSingle(2, l);
    CountConcat(bl[..1], [2], l);
    CountConcat(bl[..2], R.Fill(6, 0), l);
    CountConcat(bl[..8], [1], l);
    CountConcat(bl[..9], [2], l);
    CountConcat(bl[..10], R.Fill(9, 0), l);
  }

  lemma {:induction false} CountSingle(v: nat, l: nat)
    ensures Count([v], l) == if v == l then 1 else 0
  {
    var none: seq<nat> := [];
    assert [v][..0] == none;
  }

  /** The words of the code length code. */
  lemma {:induction false} PlainWords()
    ensures var bl := PlainCode();
            CodeBits(bl, 8) == [false] && CodeBits(bl, 1) == [true, false] && CodeBits(bl, 9) == [true, true]
  {
    hide Count, MsbBits;
    PlainCounts();
    var c := Counts(PlainCode());
    assert FirstCode(c, 0) == 0;
    assert FirstCode(c, 1) == 0;
    assert FirstCode(c, 2) == 2;
    PlainMsb();
  }

  lemma {:induction false} PlainMsb()
    ensures MsbBits(0, 1) == [false] && MsbBits(2, 2) == [true, false] && MsbBits(3, 2) == [true, true]
  {
  }

  lemma {:induction false} PlainStart(c: R.Cfg)
    requires R.Valid(c) && c.mode == R.LenLens(257, 1, 18, CL.Ordered(PlainCode(), 18))
    ensures var d := c.(mode := R.CodeLens(257, 1, PlainCode(), [])); R.Valid(d) && R.Reaches(c, d)
  {
    hide R.Step, R.Reaches, R.Valid, R.Unscramble, R.Order, R.GoodLengthCode, PlainCode;
    PlainCodeIs();
    CL.OrderedBack(PlainCode(), 18);
    R.StepCases(c);
    var d := R.Went(c);
  }

  /** The lengths themselves: all are single. */
  function PlainOps(): seq<CL.Op> {
    CL.Ones(255, 8) + [CL.One(9)] + [CL.One(9)] + [CL.One(1)]
  }

  lemma {:induction false} PlainOpsUnroll()
    ensures CL.AllFit([], PlainOps()) && CL.UnrollAll([], PlainOps()) == PlainLengths() + [1]
  {
    hide CL.AllFit, CL.UnrollAll, CL.OpFits, R.Fill;
    var none: seq<nat>, no: seq<CL.Op> := [], [];
    assert CL.AllFit(none, no) && CL.UnrollAll(none, no) == none by { NothingUnrolls(); }
    CL.OnesUnroll(none, no, 255, 8);
    assert no + CL.Ones(255, 8) == CL.Ones(255, 8) && none + R.Fill(255, 8) == R.Fill(255, 8);
    var a := CL.Ones(255, 8);
    CL.OneFits(R.Fill(255, 8), 9);
    CL.AllFitOne(none, a, CL.One(9));
    CL.OneFits(R.Fill(255, 8) + [9], 9);
    CL.AllFitOne(none, a + [CL.One(9)], CL.One(9));
    CL.OneFits(R.Fill(255, 8) + [9] + [9], 1);
    CL.AllFitOne(none, a + [CL.One(9)] + [CL.One(9)], CL.One(1));
    assert R.Fill(255, 8) + [9] + [9] == PlainLengths();
  }

  lemma {:induction false} NothingUnrolls()
    ensures CL.AllFit([], []) && CL.UnrollAll([], []) == []
  {
  }

  lemma {:induction false} OnesBits(k: nat)
    ensures CL.Sendable(PlainCode(), CL.Ones(k, 8))
    ensures CL.OpsBits(PlainCode(), CL.Ones(k, 8)) == seq(k, i => false)
  {
    hide PlainCode, CodeBits;
    PlainWords();
    PlainUsed();
    if k > 0 {
      OnesBits(k - 1);
      assert CL.Ones(k, 8)[..k - 1] == CL.Ones(k - 1, 8);
      EmptyField();
      assert CL.OpBits(PlainCode(), CL.One(8)) == [false];
      assert seq(k, i => false) == seq(k - 1, i => false) + [false];
    }
  }

  lemma {:induction false} EmptyField()
    ensures ToBits(0, 0) == []
  {
  }

  lemma {:induction false} PlainUsed()
    ensures Used(PlainCode(), 8) && Used(PlainCode(), 9) && Used(PlainCode(), 1)
  {
  }

  lemma {:induction false} OpMore(bl: seq<nat>, ops: seq<CL.Op>, op: CL.Op)
    requires CL.Sendable(bl, ops) && CL.OpOk(op) && Used(bl, CL.OpSymbol(op))
    ensures CL.Sendable(bl, ops + [op]) && CL.OpsBits(bl, ops + [op]) == CL.OpsBits(bl, ops) + CL.OpBits(bl, op)
  {
    assert (ops + [op])[..|ops|] == ops;
  }

  lemma {:induction false} PlainOpsBits()
    ensures CL.Sendable(PlainCode(), PlainOps())
    ensures CL.OpsBits(PlainCode(), PlainOps()) == seq(255, i => false) + [true, true] + [true, true] + [true, false]
  {
    hide PlainCode, CodeBits, CL.OpsBits, CL.Sendable;
    PlainWords();
    PlainUsed();
    EmptyField();
    OnesBits(255);
    var bl, a := PlainCode(), CL.Ones(255, 8);
    assert CL.OpBits(bl, CL.One(9)) == [true, true] && CL.OpBits(bl, CL.One(1)) == [true, false];
    OpMore(bl, a, CL.One(9));
    OpMore(bl, a + [CL.One(9)], CL.One(9));
    OpMore(bl, a + [CL.One(9)] + [CL.One(9)], CL.One(1));
  }

  /** The lengths announced are codes that can be used. */
  lemma {:induction false} PlainUsable()
    ensures R.Usable(InfTrees.LENS, PlainLengths(), 9) && R.Usable(InfTrees.DISTS, [1], 6)
    ensures PlainLengths()[256] == 9
  {
    hide Count, Shl, Pow2, InfTrees.TableEntries, InfTrees.Longest, InfTrees.Shortest, PlainLengths;
    var ll, dl := PlainLengths(), [1];
    Spaces();
    forall l: nat
      ensures Count(ll, l) == (if l == 8 then 255 else if l == 9 then 2 else 0)
      ensures Count(dl, l) == if l == 1 then 1 else 0
    {
      PlainLengthCounts(l);
      CountSingle(1, l);
    }
    PlainAtMost();
    var c, e := Counts(ll), Counts(dl);
    PlainKraft(c, e);
    InfTrees.LongestSkip(ll, 9, 15);
    InfTrees.LongestSkip(dl, 1, 15);
    InfTrees.ShortestBound(ll, 1, 9);
    InfTrees.ShortestBound(dl, 1, 1);
    PlainRoots();
    InfTrees.ShortEntries(ll, 9);
    InfTrees.ShortEntries(dl, 1);
    Powers();
  }

  lemma {:induction false} PlainRoots()
    ensures InfTrees.RootBits(PlainLengths(), 9) == 9 && InfTrees.RootBits([1], 6) == 1
  {
    hide Count, PlainLengths;
    var ll, dl := PlainLengths(), [1];
    forall l: nat
      ensures Count(ll, l) == (if l == 8 then 255 else if l == 9 then 2 else 0)
      ensures Count(dl, l) == if l == 1 then 1 else 0
    {
      PlainLengthCounts(l);
      CountSingle(1, l);
    }
    InfTrees.LongestSkip(ll, 9, 15);
    InfTrees.LongestSkip(dl, 1, 15);
    InfTrees.ShortestBound(ll, 1, 9);
    InfTrees.ShortestBound(dl, 1, 1);
  }

  lemma {:induction false} PlainKraft(c: seq<nat>, e: seq<nat>)
    requires |c| == MAXBITS + 1 && |e| == MAXBITS + 1
    requires forall l :: 0 <= l <= MAXBITS ==> c[l] == if l == 8 then 255 else if l == 9 then 2 else 0
    requires forall l :: 0 <= l <= MAXBITS ==> e[l] == if l == 1 then 1 else 0
    ensures Kraft(c, MAXBITS) == 32768 && Kraft(e, MAXBITS) == 16384
  {
    hide Shl;
    Spaces();
    KraftFlat(c, 0, 7);
    KraftFlat(c, 9, MAXBITS);
    assert Kraft(c, 0) == 0 == Kraft(e, 0);
    assert Kraft(c, 8) == 32640;
    KraftFlat(e, 1, MAXBITS);
  }

  lemma {:induction false} PlainAtMost()
    ensures (forall i :: 0 <= i < 257 ==> PlainLengths()[i] <= 9) && PlainLengths()[256] == 9
  {
  }

  lemma {:induction false} PlainLengthCounts(l: nat)
    ensures Count(PlainLengths(), l) == if l == 8 then 255 else if l == 9 then 2 else 0
  {
    hide Count, R.Fill;
    R.CountFill(255, 8, l);
    CountSingle(9, l);
    CountConcat([9], [9], l);
    assert [9] + [9] == [9, 9];
    CountConcat(R.Fill(255, 8), [9, 9], l);
  }

  lemma {:induction false} PlainRead(c: R.Cfg, rest: seq<bool>) returns (d: R.Cfg)
    requires R.Valid(c) && c.mode == R.CodeLens(257, 1, PlainCode(), [])
    requires c.inp == seq(255, i => false) + [true, true] + [true, true] + [true, false] + rest
    ensures R.Reaches(c, d) && d == c.(mode := R.Len, ll := PlainLengths(), dl := [1], inp := rest)
  {
    hide R.Step, R.Reaches, R.Valid, PlainCode, PlainOps, PlainLengths, R.Usable, CL.UnrollAll, CL.AllFit, CL.OpsBits,
         CL.Sendable;
    PlainOpsUnroll();
    PlainOpsBits();
    PlainUsable();
    CL.ReadOps(c, PlainCode(), [], 258, PlainOps(), rest);
    var e := c.(mode := c.mode.(lens := PlainLengths() + [1]), inp := rest);
    R.CodeLensCase(e);
    assert (PlainLengths() + [1])[..257] == PlainLengths() && (PlainLengths() + [1])[257..] == [1];
    d := R.Went(e);
    R.ReachesTrans(c, e, d);
  }
}
