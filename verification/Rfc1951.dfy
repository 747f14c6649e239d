/** The DEFLATE format (RFC 1951) as a deterministic machine over the bits still unread.
    One step decodes one symbol or field, or produces one byte, so that a decoder that
    may stop anywhere for lack of input or of room can be compared with it. Where zlib is
    stricter than the format, the machine is zlib's: at most 286 literal and length codes and
    30 distance codes, and decoding tables of limited size (inflate.c, inftrees.h). */
module Rfc1951 {
  import opened Bits
  import opened Canonical
  import InfTrees

  /** Bases and extra bits of length symbols 257..285 and distance symbols 0..29. */
  function LengthBase(i: nat): nat
    requires i < 29
  {
    [3, 4, 5, 6, 7, 8, 9, 10, 11, 13, 15, 17, 19, 23, 27, 31,
     35, 43, 51, 59, 67, 83, 99, 115, 131, 163, 195, 227, 258][i]
  }

  function LengthExtra(i: nat): nat
    requires i < 29
  {
    [0, 0, 0, 0, 0, 0, 0, 0, 1, 1, 1, 1, 2, 2, 2, 2,
     3, 3, 3, 3, 4, 4, 4, 4, 5, 5, 5, 5, 0][i]
  }

  function DistBase(i: nat): nat
    requires i < 30
  {
    [1, 2, 3, 4, 5, 7, 9, 13, 17, 25, 33, 49, 65, 97, 129, 193,
     257, 385, 513, 769, 1025, 1537, 2049, 3073, 4097, 6145,
     8193, 12289, 16385, 24577][i]
  }

  function DistExtra(i: nat): nat
    requires i < 30
  {
    [0, 0, 0, 0, 1, 1, 2, 2, 3, 3, 4, 4, 5, 5, 6, 6,
     7, 7, 8, 8, 9, 9, 10, 10, 11, 11, 12, 12, 13, 13][i]
  }

  /** The order in which the lengths of the code length code are sent. */
  function Order(i: nat): (s: nat)
    requires i < 19
    ensures s < 19
  {
    [16, 17, 18, 0, 8, 7, 9, 6, 10, 5, 11, 4, 12, 3, 13, 2, 14, 1, 15][i]
  }

  datatype Option<T> = None | Some(value: T)

  datatype Error = InvalidBlockType | InvalidStoredLengths | TooManySymbols | InvalidCodeLengthsSet
                 | InvalidRepeat | MissingEndOfBlock | InvalidLiteralSet | InvalidDistanceSet
                 | InvalidLiteralCode | InvalidDistanceCode | TooFarBack

  datatype Mode =
    | Type                                                           // before a block header
    | Stored                                                         // before the lengths of a stored block
    | Copy(n: nat)                                                   // n stored bytes to go
    | Table                                                          // before the counts of a dynamic block
    | LenLens(nlen: nat, ndist: nat, ncode: nat, cl: seq<nat>)       // code length code lengths so far
    | CodeLens(nlen: nat, ndist: nat, bl: seq<nat>, lens: seq<nat>)  // code lengths so far
    | Len                                                            // before a literal or length symbol
    | Lit(lit: byte)
    | LenExt(base: nat, extra: nat)
    | Dist(length: nat)
    | DistExt(length: nat, base: nat, extra: nat)
    | Match(length: nat, offset: nat)
    | Done
    | Bad(err: Error)

  /** A decoder at work: the codes of the present block, all bytes produced, all bits unread. */
  datatype Cfg = Cfg(mode: Mode, last: bool, ll: seq<nat>, dl: seq<nat>, out: seq<byte>, inp: seq<bool>)

  // ---- the fixed codes ----

  function Fill(n: nat, v: nat): (s: seq<nat>)
    ensures |s| == n && forall i :: 0 <= i < n ==> s[i] == v
  {
    seq(n, i => v)
  }

  /** The code lengths of fixed blocks. */
  function FixedLens(typ: InfTrees.CodeType): seq<nat> {
    if typ == InfTrees.LENS then Fill(144, 8) + Fill(112, 9) + Fill(24, 7) + Fill(8, 8) else Fill(32, 5)
  }

  lemma {:induction false} CountFill(n: nat, v: nat, l: nat)
    ensures Count(Fill(n, v), l) == if v == l then n else 0
  {
    if n > 0 {
      CountFill(n - 1, v, l);
      assert Fill(n, v)[..n - 1] == Fill(n - 1, v);
    }
  }

  lemma {:induction false} FixedCounts(l: nat)
    ensures Count(FixedLens(InfTrees.LENS), l) == if l == 7 then 24 else if l == 8 then 152 else if l == 9 then 112
        else 0
    ensures Count(FixedLens(InfTrees.DISTS), l) == if l == 5 then 32 else 0
  {
    hide Count;
    CountConcat(Fill(144, 8) + Fill(112, 9) + Fill(24, 7), Fill(8, 8), l);
    CountConcat(Fill(144, 8) + Fill(112, 9), Fill(24, 7), l);
    CountConcat(Fill(144, 8), Fill(112, 9), l);
    CountFill(144, 8, l);
    CountFill(112, 9, l);
    CountFill(24, 7, l);
    CountFill(8, 8, l);
    CountFill(32, 5, l);
  }

  lemma {:induction false} FixedLensOk()
    ensures LensOk(FixedLens(InfTrees.LENS)) && LensOk(FixedLens(InfTrees.DISTS))
    ensures |FixedLens(InfTrees.LENS)| == 288 && |FixedLens(InfTrees.DISTS)| == 32
  {
  }

  /** The fixed codes are complete. */
  lemma {:induction false} FixedGood()
    ensures GoodCode(FixedLens(InfTrees.LENS)) && GoodCode(FixedLens(InfTrees.DISTS))
    ensures Complete(FixedLens(InfTrees.LENS)) && Complete(FixedLens(InfTrees.DISTS))
  {
    hide Fill, FixedLens, Count, Kraft, Counts;
    var c, d := Counts(FixedLens(InfTrees.LENS)), Counts(FixedLens(InfTrees.DISTS));
    forall l | 0 <= l <= MAXBITS
      ensures c[l] == if l == 7 then 24 else if l == 8 then 152 else if l == 9 then 112 else 0
      ensures d[l] == if l == 5 then 32 else 0
    {
      FixedCounts(l);
    }
    FixedLensOk();
    FixedKraft(c, d);
  }

  lemma {:induction false} FixedShl()
    ensures Shl(24, 8) == 6144 && Shl(152, 7) == 19456 && Shl(112, 6) == 7168 && Shl(32, 10) == 32768
    ensures Pow2(MAXBITS) == 32768
  {
    assert Pow2(15) == 32768;
  }

  lemma {:induction false} FixedKraft(c: seq<nat>, d: seq<nat>)
    requires |c| == MAXBITS + 1 && |d| == MAXBITS + 1
    requires forall l :: 0 <= l <= MAXBITS ==> c[l] == if l == 7 then 24 else if l == 8 then 152
        else if l == 9 then 112 else 0
    requires forall l :: 0 <= l <= MAXBITS ==> d[l] == if l == 5 then 32 else 0
    ensures Kraft(c, MAXBITS) == Pow2(MAXBITS) == Kraft(d, MAXBITS)
  {
    hide Shl, Pow2;
    FixedShl();
    KraftFlat(c, 0, 6);
    assert Kraft(c, 7) == 6144;
    assert Kraft(c, 8) == 6144 + 19456;
    KraftFlat(c, 9, MAXBITS);
    KraftFlat(d, 0, 4);
    KraftFlat(d, 5, MAXBITS);
  }

  // ---- which codes are accepted ----

  /** A code for literals and lengths, or for distances: complete, or at most one code of one bit. */
  ghost predicate GoodCode(lens: seq<nat>) {
    LensOk(lens) && NotOver(lens) && (Complete(lens) || Sparse(lens))
  }

  /** A good code whose decoding table fits in the space that zlib sets aside (ENOUGH_LENS and
      ENOUGH_DISTS of inftrees.h), which is a limit of zlib and not of the format. The space is
      meant to be enough for every code. */
  ghost predicate Usable(typ: InfTrees.CodeType, lens: seq<nat>, bits: nat) {
    GoodCode(lens) && InfTrees.Fits(typ, lens, bits)
  }

  /** A code for code lengths: complete, or empty. */
  ghost predicate GoodLengthCode(lens: seq<nat>) {
    LensOk(lens) && NotOver(lens) && (Complete(lens) || (Sparse(lens) && Count(lens, 1) == 0))
  }

  // ---- steps ----

  /** Take n bits off the input, as a number. */
  function Peek(b: seq<bool>, n: nat): nat
    requires n <= |b|
  {
    FromBits(b[..n])
  }

  function Aligned(b: seq<bool>): seq<bool> {
    b[|b| % 8..]
  }

  function Fail(c: Cfg, e: Error): Cfg {
    c.(mode := Bad(e), inp := [])
  }

  /** The header bits are off the input: start a block of type t. */
  function BlockStart(c: Cfg, t: nat): Cfg {
    match t
    case 0 => c.(mode := Stored, inp := Aligned(c.inp))
    case 1 => c.(mode := Len, ll := FixedLens(InfTrees.LENS), dl := FixedLens(InfTrees.DISTS))
    case 2 => c.(mode := Table)
    case _ => Fail(c, InvalidBlockType)
  }

  function StepType(c: Cfg): Option<Cfg> {
    if c.last then Some(c.(mode := Done, inp := Aligned(c.inp)))
    else if |c.inp| < 3 then None
    else Some(BlockStart(c.(last := c.inp[0], inp := c.inp[3..]), Peek(c.inp[1..], 2)))
  }

  function StepStored(c: Cfg): Option<Cfg> {
    if |c.inp| < 32 then None
    else
      var len, nlen := Peek(c.inp, 16), Peek(c.inp[16..], 16);
      if len + nlen == 0xffff then Some(c.(mode := Copy(len), inp := c.inp[32..]))
      else Some(Fail(c, InvalidStoredLengths))
  }

  function StepCopy(c: Cfg): Option<Cfg>
    requires c.mode.Copy?
  {
    if c.mode.n == 0 then Some(c.(mode := Type))
    else if |c.inp| < 8 then None
    else
      assert Pow2(8) == 256;
      Some(c.(mode := Copy(c.mode.n - 1), out := c.out + [Peek(c.inp, 8) as byte], inp := c.inp[8..]))
  }

  /** The counts are off the input: start reading the code length code. */
  function TableStart(c: Cfg, nlen: nat, ndist: nat, ncode: nat): Cfg {
    if nlen > 286 || ndist > 30 then Fail(c, TooManySymbols)
    else c.(mode := LenLens(nlen, ndist, ncode, []))
  }

  function StepTable(c: Cfg): Option<Cfg> {
    if |c.inp| < 14 then None
    else Some(TableStart(c.(inp := c.inp[14..]), Peek(c.inp, 5) + 257, Peek(c.inp[5..], 5) + 1,
        Peek(c.inp[10..], 4) + 4))
  }

  /** The code length code whose first lengths, in transmission order, are cl. */
  function Unscramble(cl: seq<nat>): (bl: seq<nat>)
    requires |cl| <= 19
    ensures |bl| == 19
  {
    if cl == [] then Fill(19, 0)
    else Unscramble(cl[..|cl| - 1])[Order(|cl| - 1) := cl[|cl| - 1]]
  }

  ghost function StepLenLens(c: Cfg): Option<Cfg>
    requires c.mode.LenLens? && |c.mode.cl| <= c.mode.ncode <= 19
  {
    var m := c.mode;
    if |m.cl| < m.ncode then
      if |c.inp| < 3 then None
      else Some(c.(mode := m.(cl := m.cl + [Peek(c.inp, 3)]), inp := c.inp[3..]))
    else Some(CodeLensStart(c, Unscramble(m.cl)))
  }

  /** All lengths of the code length code are off the input. */
  ghost function CodeLensStart(c: Cfg, bl: seq<nat>): Cfg
    requires c.mode.LenLens?
  {
    if GoodLengthCode(bl) then c.(mode := CodeLens(c.mode.nlen, c.mode.ndist, bl, []))
    else Fail(c, InvalidCodeLengthsSet)
  }

  /** Where in the transmission order the length of symbol s comes. */
  function OrderOf(s: nat): (i: nat)
    requires s < 19
    ensures i < 19 && Order(i) == s
  {
    [3, 17, 15, 13, 11, 9, 7, 5, 4, 6, 8, 10, 12, 14, 16, 18, 0, 1, 2][s]
  }

  lemma {:induction false} OrderInjective(i: nat, j: nat)
    requires i < 19 && j < 19 && Order(i) == Order(j)
    ensures i == j
  {
  }

  lemma {:induction false} UnscrambleAt(cl: seq<nat>, i: nat)
    requires |cl| <= 19 && i < 19
    ensures Unscramble(cl)[Order(i)] == if i < |cl| then cl[i] else 0
    decreases |cl|
  {
    hide Order;
    if cl != [] {
      var n := |cl| - 1;
      UnscrambleAt(cl[..n], i);
      if Order(i) == Order(n) { OrderInjective(i, n); }
    }
  }

  /** Extra bits, base count and repeated value of code length symbols 16, 17 and 18. */
  function RepeatBits(s: nat): nat {
    if s == 16 then 2 else if s == 17 then 3 else 7
  }

  function RepeatBase(s: nat): nat {
    if s == 18 then 11 else 3
  }

  /** Length v, k times over. */
  function RepeatFill(c: Cfg, v: nat, k: nat): Cfg
    requires c.mode.CodeLens?
  {
    var m := c.mode;
    if |m.lens| + k > m.nlen + m.ndist then Fail(c, InvalidRepeat)
    else c.(mode := m.(lens := m.lens + Fill(k, v)))
  }

  /** Code length symbol s >= 16, in the first n bits, and its repeat count. */
  function RepeatLens(c: Cfg, s: nat, n: nat): Cfg
    requires c.mode.CodeLens? && n + RepeatBits(s) <= |c.inp|
  {
    var m := c.mode;
    if s == 16 && m.lens == [] then Fail(c, InvalidRepeat)
    else
      var v := if s == 16 then m.lens[|m.lens| - 1] else 0;
      var k := RepeatBase(s) + Peek(c.inp[n..], RepeatBits(s));
      RepeatFill(c.(inp := c.inp[n + RepeatBits(s)..]), v, k)
  }

  function PushLen(c: Cfg, v: nat, n: nat): Cfg
    requires c.mode.CodeLens? && n <= |c.inp|
  {
    c.(mode := c.mode.(lens := c.mode.lens + [v]), inp := c.inp[n..])
  }

  /** All code lengths are off the input. */
  ghost function BlockCodes(c: Cfg): Cfg
    requires c.mode.CodeLens? && |c.mode.lens| == c.mode.nlen + c.mode.ndist && c.mode.nlen >= 257
  {
    var m := c.mode;
    if m.lens[256] == 0 then Fail(c, MissingEndOfBlock)
    else if !Usable(InfTrees.LENS, m.lens[..m.nlen], 9) then Fail(c, InvalidLiteralSet)
    else if !Usable(InfTrees.DISTS, m.lens[m.nlen..], 6) then Fail(c, InvalidDistanceSet)
    else c.(mode := Len, ll := m.lens[..m.nlen], dl := m.lens[m.nlen..])
  }

  ghost function StepCodeLens(c: Cfg): Option<Cfg>
    requires c.mode.CodeLens? && |c.mode.lens| <= c.mode.nlen + c.mode.ndist && c.mode.nlen >= 257
  {
    if |c.mode.lens| < c.mode.nlen + c.mode.ndist then
      match DecodeSym(c.mode.bl, c.inp)
      case NeedMore => None
      case NoCode => Some(PushLen(c, 0, 1))  // the invalid marker reads as length 0
      case Sym(s, n) =>
        if s < 16 then Some(PushLen(c, s, n))
        else if |c.inp| < n + RepeatBits(s) then None
        else Some(RepeatLens(c, s, n))
    else Some(BlockCodes(c))
  }

  /** Literal or length symbol s is off the input. */
  function LenSymbol(c: Cfg, s: nat): Cfg {
    if s < 256 then c.(mode := Lit(s))
    else if s == 256 then c.(mode := Type)
    else if s <= 285 then c.(mode := LenExt(LengthBase(s - 257), LengthExtra(s - 257)))
    else Fail(c, InvalidLiteralCode)
  }

  ghost function StepLen(c: Cfg): Option<Cfg> {
    match DecodeSym(c.ll, c.inp)
    case NeedMore => None
    case NoCode => Some(Fail(c, InvalidLiteralCode))
    case Sym(s, n) => Some(LenSymbol(c.(inp := c.inp[n..]), s))
  }

  /** Distance symbol s is off the input. */
  function DistSymbol(c: Cfg, s: nat): Cfg
    requires c.mode.Dist?
  {
    if s <= 29 then c.(mode := DistExt(c.mode.length, DistBase(s), DistExtra(s)))
    else Fail(c, InvalidDistanceCode)
  }

  ghost function StepDist(c: Cfg): Option<Cfg>
    requires c.mode.Dist?
  {
    match DecodeSym(c.dl, c.inp)
    case NeedMore => None
    case NoCode => Some(Fail(c, InvalidDistanceCode))
    case Sym(s, n) => Some(DistSymbol(c.(inp := c.inp[n..]), s))
  }

  function StepLenExt(c: Cfg): Option<Cfg>
    requires c.mode.LenExt?
  {
    var m := c.mode;
    if |c.inp| < m.extra then None
    else Some(c.(mode := Dist(m.base + Peek(c.inp, m.extra)), inp := c.inp[m.extra..]))
  }

  function StepDistExt(c: Cfg): Option<Cfg>
    requires c.mode.DistExt?
  {
    var m := c.mode;
    if |c.inp| < m.extra then None
    else Some(c.(mode := Match(m.length, m.base + Peek(c.inp, m.extra)), inp := c.inp[m.extra..]))
  }

  function StepMatch(c: Cfg): Cfg
    requires c.mode.Match? && c.mode.length >= 1 && c.mode.offset >= 1
  {
    var m := c.mode;
    if m.offset > |c.out| then Fail(c, TooFarBack)
    else c.(mode := if m.length == 1 then Len
        else Match(m.length - 1, m.offset), out := c.out + [c.out[|c.out| - m.offset]])
  }

  ghost predicate Valid(c: Cfg) {
    match c.mode
    case LenLens(nlen, ndist, ncode, cl) => 
      257 <= nlen <= 286 && 1 <= ndist <= 30 && |cl| <= ncode <= 19 && forall i :: 0 <= i < |cl| ==> cl[i] < 8
    case CodeLens(nlen, ndist, bl, lens) =>
      257 <= nlen <= 286 && 1 <= ndist <= 30 && |lens| <= nlen + ndist && |bl| == 19 && GoodLengthCode(bl)
          && LensOk(lens)
    case Match(length, offset) => 1 <= length <= 258 && 1 <= offset <= 32768 && GoodCode(c.ll) && GoodCode(c.dl)
    case Dist(length) => 1 <= length <= 258 && GoodCode(c.ll) && GoodCode(c.dl)
    case DistExt(length, base, extra) =>
      1 <= length <= 258 && base >= 1 && extra <= 13 && base + Pow2(extra) <= 32769 && GoodCode(c.ll) && GoodCode(c.dl)
    case LenExt(base, extra) => base >= 1 && extra <= 5 && base + Pow2(extra) <= 259 && GoodCode(c.ll) && GoodCode(c.dl)
    case Len => GoodCode(c.ll) && GoodCode(c.dl)
    case Lit(b) => GoodCode(c.ll) && GoodCode(c.dl)
    case _ => true
  }

  /** The next configuration, or none when more input is needed or decoding is over. */
  ghost function Step(c: Cfg): Option<Cfg>
    requires Valid(c)
  {
    match c.mode
    case Type => StepType(c)
    case Stored => StepStored(c)
    case Copy(n) => StepCopy(c)
    case Table => StepTable(c)
    case LenLens(nlen, ndist, ncode, cl) => StepLenLens(c)
    case CodeLens(nlen, ndist, bl, lens) => StepCodeLens(c)
    case Len => StepLen(c)
    case Lit(b) => Some(c.(mode := Len, out := c.out + [b]))
    case LenExt(base, extra) => StepLenExt(c)
    case Dist(length) => StepDist(c)
    case DistExt(length, base, extra) => StepDistExt(c)
    case Match(length, offset) => Some(StepMatch(c))
    case Done => None
    case Bad(e) => None
  }

  /** The step of each mode, for proofs that look at one mode. */
  lemma {:induction false} StepCases(c: Cfg)
    requires Valid(c)
    ensures c.mode.Type? ==> Step(c) == StepType(c)
    ensures c.mode.Stored? ==> Step(c) == StepStored(c)
    ensures c.mode.Copy? ==> Step(c) == StepCopy(c)
    ensures c.mode.Table? ==> Step(c) == StepTable(c)
    ensures c.mode.LenLens? ==> Step(c) == StepLenLens(c)
    ensures c.mode.CodeLens? ==> Step(c) == StepCodeLens(c)
    ensures c.mode.Len? ==> Step(c) == StepLen(c)
    ensures c.mode.Lit? ==> Step(c) == Some(c.(mode := Len, out := c.out + [c.mode.lit]))
    ensures c.mode.LenExt? ==> Step(c) == StepLenExt(c)
    ensures c.mode.Dist? ==> Step(c) == StepDist(c)
    ensures c.mode.DistExt? ==> Step(c) == StepDistExt(c)
    ensures c.mode.Match? ==> c.mode.length >= 1 && c.mode.offset >= 1 && Step(c) == Some(StepMatch(c))
    ensures c.mode.Done? || c.mode.Bad? ==> Step(c) == None
  {
    hide StepType, StepStored, StepCopy, StepTable, StepLenLens, StepCodeLens, StepLen, StepDist, StepLenExt,
         StepDistExt, StepMatch;
  }

  lemma {:induction false} TableCase(c: Cfg)
    requires Valid(c) && c.mode.Table?
    ensures Step(c) == StepTable(c)
  {
    hide StepTable;
  }

  lemma {:induction false} CodeLensCase(c: Cfg)
    requires Valid(c) && c.mode.CodeLens?
    ensures |c.mode.lens| <= c.mode.nlen + c.mode.ndist && c.mode.nlen >= 257 && Step(c) == StepCodeLens(c)
    ensures NotOver(c.mode.bl) && |c.mode.bl| == 19
  {
    hide StepCodeLens, NotOver, Complete, Sparse, LensOk;
  }

  // ---- runs ----

  /** n steps, or none when one of them cannot be taken. */
  ghost function Steps(c: Cfg, n: nat): Option<Cfg>
    requires Valid(c)
    decreases n
  {
    if n == 0 then Some(c)
    else
      var s := Step(c);
      if s.None? then None else (StepValid(c); Steps(s.value, n - 1))
  }

  ghost predicate Reaches(c: Cfg, d: Cfg) {
    Valid(c) && exists n :: Steps(c, n) == Some(d)
  }

  /** Nothing more can be done without more input. */
  ghost predicate Stuck(c: Cfg) {
    Valid(c) && Step(c) == None
  }

  /** c with more input behind what it has. */
  function Feed(c: Cfg, more: seq<bool>): Cfg {
    if c.mode.Bad? then c else c.(inp := c.inp + more)
  }

  lemma {:induction false} StepValid(c: Cfg)
    requires Valid(c) && Step(c).Some?
    ensures Valid(Step(c).value)
  {
    hide Complete, NotOver, Sparse, Unscramble, Count, FromBits, GoodCode, GoodLengthCode,
         StepType, StepTable, StepLenLens, StepCodeLens, StepLen, StepDist, StepLenExt, StepDistExt, Pow2;
    match c.mode
    case Type => TypeValid(c);
    case Table => TableValid(c);
    case LenLens(nlen, ndist, ncode, cl) => LenLensValid(c);
    case CodeLens(nlen, ndist, bl, lens) => CodeLensValid(c);
    case Len => LenValid(c);
    case Dist(length) => DistValid(c);
    case LenExt(base, extra) => ExtValid(c);
    case DistExt(length, base, extra) => ExtValid(c);
    case _ =>
  }

  lemma {:induction false} TypeValid(c: Cfg)
    requires StepType(c).Some?
    ensures Valid(StepType(c).value)
  {
    hide FixedLens, GoodCode, FromBits, Fill, Complete;
    FixedGood();
  }

  lemma {:induction false} TableValid(c: Cfg)
    requires StepTable(c).Some?
    ensures Valid(StepTable(c).value)
  {
    hide FromBits;
    if |c.inp| >= 14 {
      FieldBound(c.inp, 5);
      FieldBound(c.inp[5..], 5);
      FieldBound(c.inp[10..], 4);
    }
  }

  lemma {:induction false} FieldBound(b: seq<bool>, n: nat)
    requires n <= |b|
    ensures Peek(b, n) < Pow2(n)
  {
  }

  lemma {:induction false} LenLensValid(c: Cfg)
    requires Valid(c) && c.mode.LenLens? && StepLenLens(c).Some?
    ensures Valid(StepLenLens(c).value)
  {
    hide GoodLengthCode, Unscramble, FromBits, Peek;
    if |c.inp| >= 3 {
      FieldBound(c.inp, 3);
      assert Pow2(3) == 8;
    }
  }

  lemma {:induction false} SmallPow2()
    ensures Pow2(0) == 1 && Pow2(1) == 2 && Pow2(2) == 4 && Pow2(3) == 8 && Pow2(4) == 16 && Pow2(5) == 32
        && Pow2(6) == 64
    ensures Pow2(7) == 128 && Pow2(8) == 256 && Pow2(9) == 512 && Pow2(10) == 1024 && Pow2(11) == 2048
        && Pow2(12) == 4096
    ensures Pow2(13) == 8192
  {
  }

  /** No length is more than 258, and no distance more than 32768. */
  lemma {:induction false} LengthBound(i: nat)
    requires i < 29
    ensures 1 <= LengthBase(i) && LengthExtra(i) <= 5 && LengthBase(i) + Pow2(LengthExtra(i)) <= 259
  {
    hide Pow2;
    SmallPow2();
  }

  lemma {:induction false} DistBound(i: nat)
    requires i < 30
    ensures 1 <= DistBase(i) && DistExtra(i) <= 13 && DistBase(i) + Pow2(DistExtra(i)) <= 32769
  {
    hide Pow2;
    SmallPow2();
  }

  lemma {:induction false} LenValid(c: Cfg)
    requires GoodCode(c.ll) && GoodCode(c.dl) && StepLen(c).Some?
    ensures Valid(StepLen(c).value)
  {
    hide DecodeSym, GoodCode, GoodLengthCode, LengthBase, LengthExtra, Pow2;
    match DecodeSym(c.ll, c.inp)
    case Sym(s, n) => if 257 <= s <= 285 { LengthBound(s - 257); }
    case _ =>
  }

  lemma {:induction false} DistValid(c: Cfg)
    requires GoodCode(c.ll) && GoodCode(c.dl) && c.mode.Dist? && 1 <= c.mode.length <= 258 && StepDist(c).Some?
    ensures Valid(StepDist(c).value)
  {
    hide DecodeSym, GoodCode, GoodLengthCode, DistBase, DistExtra, Pow2;
    match DecodeSym(c.dl, c.inp)
    case Sym(s, n) => if s <= 29 { DistBound(s); }
    case _ =>
  }

  lemma {:induction false} ExtValid(c: Cfg)
    requires Valid(c)
    ensures c.mode.LenExt? && StepLenExt(c).Some? ==> Valid(StepLenExt(c).value)
    ensures c.mode.DistExt? && StepDistExt(c).Some? ==> Valid(StepDistExt(c).value)
  {
    hide GoodCode, GoodLengthCode, Peek, Pow2, FromBits;
    match c.mode
    case LenExt(base, extra) => if |c.inp| >= extra { FieldBound(c.inp, extra); }
    case DistExt(length, base, extra) => if |c.inp| >= extra { FieldBound(c.inp, extra); }
    case _ =>
  }

  lemma {:induction false} CodeLensValid(c: Cfg)
    requires Valid(c) && c.mode.CodeLens? && StepCodeLens(c).Some?
    ensures Valid(StepCodeLens(c).value)
  {
    hide Complete, NotOver, Sparse, Unscramble, Count, CodeBits, InfTrees.Fits;
  }

  // ---- more input never changes a step already possible ----

  lemma {:induction false} PeekFeed(b: seq<bool>, more: seq<bool>, k: nat, n: nat)
    requires k + n <= |b|
    ensures Peek((b + more)[k..], n) == Peek(b[k..], n)
    ensures (b + more)[k + n..] == b[k + n..] + more
  {
    assert (b + more)[k..][..n] == b[k..][..n];
  }

  lemma {:induction false} AlignedFeed(b: seq<bool>, more: seq<bool>)
    requires |more| % 8 == 0
    ensures Aligned(b + more) == Aligned(b) + more
  {
    assert |b + more| % 8 == |b| % 8;
  }

  lemma {:induction false} TypeFeed(c: Cfg, more: seq<bool>)
    requires StepType(c).Some? && |more| % 8 == 0
    ensures StepType(c.(inp := c.inp + more)) == Some(Feed(StepType(c).value, more))
  {
    hide FixedLens, FromBits, Peek, Aligned;
    AlignedFeed(c.inp, more);
    if |c.inp| >= 3 {
      PeekFeed(c.inp, more, 1, 2);
      AlignedFeed(c.inp[3..], more);
      assert (c.inp + more)[0] == c.inp[0];
    }
  }

  lemma {:induction false} StoredFeed(c: Cfg, more: seq<bool>)
    requires StepStored(c).Some?
    ensures StepStored(c.(inp := c.inp + more)) == Some(Feed(StepStored(c).value, more))
  {
    hide FromBits, Peek;
    var b := c.inp;
    PeekFeed(b, more, 0, 16);
    assert (b + more)[0..] == b + more && b[0..] == b;
    PeekFeed(b, more, 16, 16);
  }

  lemma {:induction false} CopyFeed(c: Cfg, more: seq<bool>)
    requires c.mode.Copy? && StepCopy(c).Some?
    ensures StepCopy(c.(inp := c.inp + more)) == Some(Feed(StepCopy(c).value, more))
  {
    hide FromBits;
    var b := c.inp;
    if c.mode.n > 0 {
      assert (b + more)[..8] == b[..8];
      assert (b + more)[8..] == b[8..] + more;
    }
  }

  lemma {:induction false} TableFeed(c: Cfg, more: seq<bool>)
    requires StepTable(c).Some?
    ensures StepTable(c.(inp := c.inp + more)) == Some(Feed(StepTable(c).value, more))
  {
    hide FromBits, Peek;
    var b := c.inp;
    PeekFeed(b, more, 0, 5);
    assert (b + more)[0..] == b + more && b[0..] == b;
    PeekFeed(b, more, 5, 5);
    PeekFeed(b, more, 10, 4);
  }

  lemma {:induction false} LenLensFeed(c: Cfg, more: seq<bool>)
    requires Valid(c) && c.mode.LenLens? && StepLenLens(c).Some?
    ensures StepLenLens(c.(inp := c.inp + more)) == Some(Feed(StepLenLens(c).value, more))
  {
    hide FromBits, Peek, GoodLengthCode, Unscramble;
    var b := c.inp;
    if |c.mode.cl| < c.mode.ncode {
      PeekFeed(b, more, 0, 3);
      assert (b + more)[0..] == b + more && b[0..] == b;
    }
  }

  lemma {:induction false} CodeLensFeed(c: Cfg, more: seq<bool>)
    requires Valid(c) && c.mode.CodeLens? && StepCodeLens(c).Some?
    ensures StepCodeLens(c.(inp := c.inp + more)) == Some(Feed(StepCodeLens(c).value, more))
  {
    hide FromBits, Peek, DecodeSym, Fill, Kraft, Counts, Usable;
    var b := c.inp;
    if |c.mode.lens| < c.mode.nlen + c.mode.ndist {
      DecodeExtend(c.mode.bl, b, more);
      match DecodeSym(c.mode.bl, b)
      case Sym(s, n) =>
        assert (b + more)[n..] == b[n..] + more;
        if s >= 16 {
          PeekFeed(b, more, n, RepeatBits(s));
        }
      case NoCode =>
        assert (b + more)[1..] == b[1..] + more;
      case _ =>
    }
  }

  lemma {:induction false} LenFeed(c: Cfg, more: seq<bool>)
    requires GoodCode(c.ll) && StepLen(c).Some?
    ensures StepLen(c.(inp := c.inp + more)) == Some(Feed(StepLen(c).value, more))
  {
    hide DecodeSym, Kraft, Counts;
    DecodeExtend(c.ll, c.inp, more);
    match DecodeSym(c.ll, c.inp)
    case Sym(s, n) => assert (c.inp + more)[n..] == c.inp[n..] + more;
    case _ =>
  }

  lemma {:induction false} DistFeed(c: Cfg, more: seq<bool>)
    requires GoodCode(c.dl) && c.mode.Dist? && StepDist(c).Some?
    ensures StepDist(c.(inp := c.inp + more)) == Some(Feed(StepDist(c).value, more))
  {
    hide DecodeSym, Kraft, Counts;
    DecodeExtend(c.dl, c.inp, more);
    match DecodeSym(c.dl, c.inp)
    case Sym(s, n) => assert (c.inp + more)[n..] == c.inp[n..] + more;
    case _ =>
  }

  lemma {:induction false} StepFeed(c: Cfg, more: seq<bool>)
    requires Valid(c) && Step(c).Some? && |more| % 8 == 0
    ensures Valid(Feed(c, more)) && Step(Feed(c, more)) == Some(Feed(Step(c).value, more))
  {
    hide FromBits, GoodCode, GoodLengthCode,
         StepType, StepStored, StepCopy, StepTable, StepLenLens, StepCodeLens, StepLen, StepDist;
    match c.mode
    case Type => TypeFeed(c, more);
    case Stored => StoredFeed(c, more);
    case Copy(n) => CopyFeed(c, more);
    case Table => TableFeed(c, more);
    case LenLens(nlen, ndist, ncode, cl) => LenLensFeed(c, more);
    case CodeLens(nlen, ndist, bl, lens) => CodeLensFeed(c, more);
    case Len => LenFeed(c, more);
    case Dist(length) => DistFeed(c, more);
    case LenExt(base, extra) =>
      assert (c.inp + more)[..extra] == c.inp[..extra];
      assert (c.inp + more)[extra..] == c.inp[extra..] + more;
    case DistExt(length, base, extra) =>
      assert (c.inp + more)[..extra] == c.inp[..extra];
      assert (c.inp + more)[extra..] == c.inp[extra..] + more;
    case _ =>
  }

  // ---- laws of runs ----

  lemma {:induction false} StepsValid(c: Cfg, n: nat)
    requires Valid(c) && Steps(c, n).Some?
    ensures Valid(Steps(c, n).value)
    decreases n
  {
    hide Step, Valid;
    if n > 0 {
      StepValid(c);
      StepsValid(Step(c).value, n - 1);
    }
  }

  lemma {:induction false} StepsAdd(c: Cfg, m: nat, n: nat)
    requires Valid(c) && Steps(c, m).Some? && Valid(Steps(c, m).value)
    ensures Steps(c, m + n) == Steps(Steps(c, m).value, n)
    decreases m
  {
    hide Step, Valid;
    if m > 0 {
      StepValid(c);
      StepsAdd(Step(c).value, m - 1, n);
    }
  }

  lemma {:induction false} StepsFeed(c: Cfg, n: nat, more: seq<bool>)
    requires Valid(c) && Steps(c, n).Some? && |more| % 8 == 0
    ensures Valid(Feed(c, more)) && Steps(Feed(c, more), n) == Some(Feed(Steps(c, n).value, more))
    decreases n
  {
    hide Step;
    if n > 0 {
      StepValid(c);
      StepFeed(c, more);
      StepsFeed(Step(c).value, n - 1, more);
    }
  }

  lemma {:induction false} ReachesRefl(c: Cfg)
    requires Valid(c)
    ensures Reaches(c, c)
  {
    assert Steps(c, 0) == Some(c);
  }

  lemma {:induction false} ReachesStep(c: Cfg)
    requires Valid(c) && Step(c).Some?
    ensures Reaches(c, Step(c).value)
  {
    hide Step, Valid;
    StepValid(c);
    assert Steps(Step(c).value, 0) == Some(Step(c).value);
    assert Steps(c, 1) == Some(Step(c).value);
  }

  /** The configuration after one step, and that it is reached. */
  ghost function Went(c: Cfg): (d: Cfg)
    requires Valid(c) && Step(c).Some?
    ensures d == Step(c).value && Valid(d) && Reaches(c, d)
  {
    StepValid(c);
    ReachesStep(c);
    Step(c).value
  }

  ghost function Still(c: Cfg): (d: Cfg)
    requires Valid(c)
    ensures d == c && Reaches(c, d)
  {
    ReachesRefl(c);
    c
  }

  lemma {:induction false} ReachesTrans(c: Cfg, d: Cfg, e: Cfg)
    requires Reaches(c, d) && Reaches(d, e)
    ensures Reaches(c, e)
  {
    hide Step, Valid;
    var m: nat :| Steps(c, m) == Some(d);
    var n: nat :| Steps(d, n) == Some(e);
    StepsAdd(c, m, n);
  }

  lemma {:induction false} ReachesFeed(c: Cfg, d: Cfg, more: seq<bool>)
    requires Reaches(c, d) && |more| % 8 == 0
    ensures Reaches(Feed(c, more), Feed(d, more))
  {
    hide Step, Valid;
    var n: nat :| Steps(c, n) == Some(d);
    StepsFeed(c, n, more);
  }

  /** Two runs from one configuration that cannot go on end in the same place. */
  lemma {:induction false} StuckUnique(c: Cfg, d: Cfg, e: Cfg)
    requires Reaches(c, d) && Reaches(c, e) && Stuck(d) && Stuck(e)
    ensures d == e
  {
    hide Step;
    var m: nat :| Steps(c, m) == Some(d);
    var n: nat :| Steps(c, n) == Some(e);
    if m <= n {
      StepsAdd(c, m, n - m);
    } else {
      StepsAdd(c, n, m - n);
    }
  }

  /** A run that cannot go on passes everything that is reached from where it started. */
  lemma {:induction false} StuckLast(c: Cfg, d: Cfg, e: Cfg)
    requires Reaches(c, d) && Reaches(c, e) && Stuck(e)
    ensures Valid(d) && Reaches(d, e)
  {
    hide Step;
    var m: nat :| Steps(c, m) == Some(d);
    var n: nat :| Steps(c, n) == Some(e);
    StepsValid(c, m);
    if m <= n {
      StepsAdd(c, m, n - m);
    } else {
      StepsAdd(c, n, m - n);
    }
  }

  /** Bytes produced are never taken back. */
  lemma {:induction false} StuckStays(c: Cfg, d: Cfg)
    requires Stuck(c) && Reaches(c, d)
    ensures d == c
  {
    hide Step;
    var n: nat :| Steps(c, n) == Some(d);
    StepsStuck(c, n);
  }

  lemma {:induction false} StepsStuck(c: Cfg, n: nat)
    requires Stuck(c)
    ensures n > 0 ==> Steps(c, n) == None
  {
    hide Step;
  }

  lemma {:induction false} OutGrows(c: Cfg, n: nat)
    requires Valid(c) && Steps(c, n).Some?
    ensures c.out <= Steps(c, n).value.out
    decreases n
  {
    hide Valid, DecodeSym, GoodCode, GoodLengthCode, FromBits;
    if n > 0 {
      StepValid(c);
      OutStep(c);
      OutGrows(Step(c).value, n - 1);
    }
  }

  lemma {:induction false} OutStep(c: Cfg)
    requires Valid(c) && Step(c).Some?
    ensures c.out <= Step(c).value.out
  {
    hide DecodeSym, GoodCode, GoodLengthCode, FromBits, FixedLens;
  }

  // ---- copies ----

  /** out with n more bytes, each a copy of the byte d places back. */
  function Extend(out: seq<byte>, d: nat, n: nat): (r: seq<byte>)
    requires 1 <= d <= |out|
    ensures |r| == |out| + n && r[..|out|] == out
  {
    if n == 0 then out
    else
      var o := Extend(out, d, n - 1);
      o + [o[|o| - d]]
  }

  /** ... and this determines them. */
  lemma {:induction false} ExtendIs(out: seq<byte>, d: nat, n: nat, r: seq<byte>)
    requires 1 <= d <= |out| && |r| == |out| + n && r[..|out|] == out
    requires forall i :: |out| <= i < |r| ==> r[i] == r[i - d]
    ensures r == Extend(out, d, n)
  {
    if n > 0 {
      var m := |r| - 1;
      assert r[..m][..|out|] == out;
      forall i | |out| <= i < m ensures r[..m][i] == r[..m][i - d] {
        assert r[i] == r[i - d];
      }
      ExtendIs(out, d, n - 1, r[..m]);
    }
  }

  /** k bytes of a match. */
  function Matched(c: Cfg, k: nat): Cfg
    requires c.mode.Match? && 1 <= c.mode.offset <= |c.out| && k <= c.mode.length
  {
    c.(mode := if k == c.mode.length then Len
        else Match(c.mode.length - k, c.mode.offset), out := Extend(c.out, c.mode.offset, k))
  }

  lemma {:induction false} MatchSteps(c: Cfg, k: nat)
    requires Valid(c) && c.mode.Match? && c.mode.offset <= |c.out| && k <= c.mode.length
    ensures c.mode.offset >= 1 && Valid(Matched(c, k)) && Reaches(c, Matched(c, k))
  {
    hide Step, Reaches, GoodCode;
    StepCases(c);
    if k == 0 {
      ReachesRefl(c);
      assert Matched(c, 0) == c;
    } else {
      MatchSteps(c, k - 1);
      var d := Matched(c, k - 1);
      StepCases(d);
      var e := Went(d);
      assert e == Matched(c, k);
      ReachesTrans(c, d, e);
    }
  }

  /** Stored bytes taken off the input. */
  function Copied(c: Cfg, bytes: seq<byte>, rest: seq<bool>): Cfg
    requires c.mode.Copy? && |bytes| <= c.mode.n
  {
    c.(mode := Copy(c.mode.n - |bytes|), out := c.out + bytes, inp := rest)
  }

  lemma {:induction false} ByteOff(v: byte, rest: seq<bool>)
    ensures var b := ToBits(v, 8) + rest; Peek(b, 8) == v && b[8..] == rest
  {
    FromToBits(v, 8);
    assert Pow2(8) == 256;
    LowSmall(v, 8);
    assert (ToBits(v, 8) + rest)[..8] == ToBits(v, 8);
  }

  lemma {:induction false} CopySteps(c: Cfg, bytes: seq<byte>, rest: seq<bool>)
    requires c.mode.Copy? && |bytes| <= c.mode.n && c.inp == BytesBits(bytes) + rest
    ensures Reaches(c, Copied(c, bytes, rest)) && Valid(Copied(c, bytes, rest))
    decreases |bytes|
  {
    hide Step, Reaches, Peek, ToBits;
    StepCases(c);
    if bytes == [] {
      ReachesRefl(c);
      assert c.inp == rest && c.out + bytes == c.out;
    } else {
      var more := BytesBits(bytes[1..]) + rest;
      assert c.inp == ToBits(bytes[0], 8) + more;
      ByteOff(bytes[0], more);
      var d := Went(c);
      CopySteps(d, bytes[1..], rest);
      assert Copied(d, bytes[1..], rest) == Copied(c, bytes, rest) by {
        assert c.out + [bytes[0]] + bytes[1..] == c.out + bytes;
      }
      ReachesTrans(c, d, Copied(d, bytes[1..], rest));
    }
  }
}
