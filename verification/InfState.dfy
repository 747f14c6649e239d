/** inflate (inflate.c) for raw streams with a 32K window and Z_NO_FLUSH: a resumable
    decoder that may stop anywhere for lack of input or of output space. Every turn of its
    loop is a run of the machine of module Rfc1951, for the input still to come. */
module InfState {
  import opened Bits
  import opened Canonical
  import opened InfTrees
  import opened Window
  import opened BitReader
  import opened Lookup
  import R = Rfc1951

  const WSIZE: nat := 32768

  datatype InflateMode = TYPE | STORED | COPY_ | COPY | TABLE | LENLENS | CODELENS | LEN_ | LEN
                       | LENEXT | DIST | DISTEXT | MATCH | LIT | CHECK | DONE | BAD

  lemma {:induction false} Peek1(b: seq<bool>)
    requires |b| >= 1
    ensures R.Peek(b, 1) == if b[0] then 1 else 0
  {
    assert b[..1] == [b[0]];
    assert FromBits([b[0]]) == if b[0] then 1 else 0;
  }

  /** The lengths that bits 0..have of the code length code were stored at. */
  function Scrambled(lens: seq<nat>, have: nat): (cl: seq<nat>)
    requires have <= 19 <= |lens|
    ensures |cl| == have
  {
    seq(have, i requires 0 <= i < have => lens[R.Order(i)])
  }

  /** The tables of the fixed codes have no sub-tables. */
  lemma {:induction false} FixedFits()
    ensures Accepted(LENS, R.FixedLens(LENS)) && Fits(LENS, R.FixedLens(LENS), 9)
    ensures Accepted(DISTS, R.FixedLens(DISTS)) && Fits(DISTS, R.FixedLens(DISTS), 5)
  {
    hide Count, TableEntries, Complete, NotOver, R.FixedLens, Kraft, Pow2, Longest, Shortest, Sparse;
    R.FixedGood();
    R.FixedLensOk();
    FixedRoots();
    FixedMax(LENS, 9);
    FixedMax(DISTS, 5);
    ShortEntries(R.FixedLens(LENS), 9);
    ShortEntries(R.FixedLens(DISTS), 5);
    R.SmallPow2();
  }

  lemma {:induction false} FixedMax(typ: CodeType, max: nat)
    requires (typ == LENS && max == 9) || (typ == DISTS && max == 5)
    ensures forall i :: 0 <= i < |R.FixedLens(typ)| ==> R.FixedLens(typ)[i] <= max
  {
  }

  lemma {:induction false} FixedRoots()
    ensures RootBits(R.FixedLens(LENS), 9) == 9 && RootBits(R.FixedLens(DISTS), 5) == 5
  {
    hide Count, R.FixedLens;
    forall l: nat | l <= MAXBITS
      ensures Count(R.FixedLens(LENS), l) == (if l == 7 then 24 else if l == 8 then 152 else if l == 9 then 112 else 0)
      ensures Count(R.FixedLens(DISTS), l) == if l == 5 then 32 else 0
    {
      R.FixedCounts(l);
    }
    LongestSkip(R.FixedLens(LENS), 9, 15);
    LongestSkip(R.FixedLens(DISTS), 5, 15);
    ShortestBound(R.FixedLens(LENS), 1, 9);
    ShortestBound(R.FixedLens(DISTS), 1, 5);
  }

  lemma {:induction false} FixedSizes()
    ensures SymbolsFit(LENS, 288) && SymbolsFit(DISTS, 32)
  {
  }

  lemma {:induction false} TwoBits(b: seq<bool>)
    requires |b| >= 2
    ensures R.Peek(b, 2) < 4
  {
    R.FieldBound(b, 2);
    assert Pow2(2) == 4;
  }

  /** Fewer bits are left than before. */
  ghost predicate Less(input: seq<byte>, r: Regs, r0: Regs) {
    r.bits - 8 * r.ipos < r0.bits - 8 * r0.ipos
  }

  /** The unread bits as the format machine sees them. */
  ghost predicate InpOk(c: R.Cfg, r: Regs, input: seq<byte>)
    requires r.ipos <= |input|
  {
    match c.mode
    case Bad(e) => c.inp == []
    case Stored => c.inp == R.Aligned(Unread(r, input))
    case _ => c.inp == Unread(r, input)
  }

  lemma {:induction false} StartInp(c: R.Cfg, t: nat, r: Regs, input: seq<byte>)
    requires r.ipos <= |input| && c.mode.Type? && c.inp == Unread(r, input)
    ensures InpOk(R.BlockStart(c, t), r, input) && R.BlockStart(c, t).out == c.out
  {
    hide R.FixedLens, Unread;
  }

  class InflateState {
    var mode: InflateMode
    var last: bool
    var length: nat
    var offset: nat
    var extra: nat
    var ncode: nat
    var nlen: nat
    var ndist: nat
    var have: nat
    var lencode: nat
    var lenbits: nat
    var distcode: nat
    var distbits: nat
    var err: R.Error
    var hold: nat
    var bits: nat
    var wsize: nat
    var whave: nat
    var wnext: nat
    const window: array<byte>
    const lens: array<nat>
    const work: array<nat>
    const codes: array<Code>
    ghost var ll: seq<nat>     // the literal and length code of the block
    ghost var dl: seq<nat>     // its distance code
    ghost var bl: seq<nat>     // its code length code

    /** inflateInit2 and inflateReset, for a raw stream. */
    constructor ()
      ensures Shape() && fresh(window) && fresh(lens) && fresh(work) && fresh(codes)
      ensures mode == TYPE && !last && hold == 0 && bits == 0 && wsize == 0 && whave == 0 && wnext == 0 && ll == []
          && dl == []
    {
      mode, last, hold, bits := TYPE, false, 0, 0;
      length, offset, extra, ncode, nlen, ndist, have := 0, 0, 0, 0, 0, 0, 0;
      lencode, lenbits, distcode, distbits, err := 0, 0, 0, 0, R.InvalidBlockType;
      wsize, whave, wnext := 0, 0, 0;
      ll, dl, bl := [], [], [];
      window := new byte[WSIZE](i => 0);
      lens := new nat[320];
      work := new nat[320];
      codes := new Code[ENOUGH_LENS + ENOUGH_DISTS](i => INVALID);
    }

    ghost predicate Shape() {
      lens.Length == 320 && work.Length == 320 && codes.Length == ENOUGH_LENS + ENOUGH_DISTS && lens != work
      && window.Length == WSIZE
    }

    /** The window, once in use, holds the last of the bytes produced by earlier calls. */
    ghost predicate WindowOk(hist: seq<byte>)
      requires Shape()
      reads `wsize, `whave, `wnext, window
    {
      if wsize == 0 then hist == [] && whave == 0 && wnext == 0
      else wsize == WSIZE && RingOk(window[..], wsize, whave, wnext, hist)
    }

    ghost predicate IsMode(m: R.Mode)
      requires Shape()
      reads `mode, `length, `offset, `extra, `nlen, `ndist, `ncode, `have, `err, `bl, lens
    {
      match mode
      case TYPE => m == R.Type
      case STORED => m == R.Stored
      case COPY_ => m == R.Copy(length)
      case COPY => m == R.Copy(length)
      case TABLE => m == R.Table
      case LENLENS => have <= 19 && m == R.LenLens(nlen, ndist, ncode, Scrambled(lens[..], have))
      case CODELENS => have <= 320 && m == R.CodeLens(nlen, ndist, bl, lens[..have])
      case LEN_ => m == R.Len
      case LEN => m == R.Len
      case LENEXT => m == R.LenExt(length, extra)
      case DIST => m == R.Dist(length)
      case DISTEXT => m == R.DistExt(length, offset, extra)
      case MATCH => m == R.Match(length, offset)
      case LIT => length < 256 && m == R.Lit(length)
      case CHECK => m == R.Done
      case DONE => m == R.Done
      case BAD => m == R.Bad(err)
    }

    ghost predicate InBlock()
      reads `mode
    {
      mode == LEN_ || mode == LEN || mode == LENEXT || mode == DIST || mode == DISTEXT || mode == MATCH || mode == LIT
    }

    ghost predicate TablesOk()
      reads `mode, `lencode, `lenbits, `distcode, `distbits, `ll, `dl, `bl, codes
    {
      && (mode == CODELENS ==> TableOk(codes[..], lencode, lenbits, CODES, bl))
      && (InBlock()
          ==> TableOk(codes[..], lencode, lenbits, LENS, ll)
              && TableOk(codes[..], distcode, distbits, DISTS, dl))
    }

    /** The state stands for the configuration c, input and output apart. */
    ghost predicate Is(c: R.Cfg)
      requires Shape()
      reads `last, `ll, `dl, `bl, `mode, `length, `offset, `extra, `nlen, `ndist, `ncode, `have, `err,
            `lencode, `lenbits, `distcode, `distbits, lens, codes
    {
      last == c.last && ll == c.ll && dl == c.dl && IsMode(c.mode) && TablesOk()
    }

    /** fixedtables, as built from inflate_table. */
    method FixedTables()
      requires Shape()
      modifies codes, work, `lencode, `lenbits, `distcode, `distbits
      ensures TableOk(codes[..], lencode, lenbits, LENS, R.FixedLens(LENS))
      ensures TableOk(codes[..], distcode, distbits, DISTS, R.FixedLens(DISTS))
    {
      hide TableOk, NotOver, Complete, R.FixedLens, Fits, Accepted, SymbolsFit;
      R.FixedLensOk();
      FixedSizes();
      FixedFits();
      var ret, root, used := InflateTable(LENS, R.FixedLens(LENS), codes, 0, 9, work);
      lencode, lenbits := 0, root;
      ghost var T := codes[..used];
      var ret2, root2, used2 := InflateTable(DISTS, R.FixedLens(DISTS), codes, used, 5, work);
      distcode, distbits := used, root2;
      assert codes[..used] == T;
      TableExtend(codes[..used], codes[..], 0, root, LENS, R.FixedLens(LENS));
      TableExtend(codes[..used + used2], codes[..], used, root2, DISTS, R.FixedLens(DISTS));
    }

    /** Switch on the block type. */
    method BlockType(ghost c: R.Cfg, t: nat)
      requires Shape() && mode == TYPE && t < 4 && c.last == last && c.ll == ll && c.dl == dl
      modifies codes, work, `lencode, `lenbits, `distcode, `distbits, `mode, `err, `ll, `dl
      ensures Is(R.BlockStart(c, t)) && mode != COPY_ && mode != COPY
    {
      hide TableOk, R.FixedLens;
      match t
      case 0 => mode := STORED;
      case 1 =>
        FixedTables();
        ll, dl := R.FixedLens(LENS), R.FixedLens(DISTS);
        mode := LEN_;
      case 2 => mode := TABLE;
      case _ =>
        err := R.InvalidBlockType;
        mode := BAD;
    }

    method GoCheck(ghost d: R.Cfg)
      requires Shape() && d.last == last && d.ll == ll && d.dl == dl && d.mode.Done?
      modifies `mode
      ensures Is(d) && mode == CHECK
    {
      hide TableOk;
      mode := CHECK;
    }

    method GoCopy(ghost d: R.Cfg, len: nat)
      requires Shape() && d.last == last && d.ll == ll && d.dl == dl && d.mode == R.Copy(len)
      modifies `mode, `length
      ensures Is(d) && mode == COPY_
    {
      hide TableOk;
      length := len;
      mode := COPY_;
    }

    lemma {:induction false} IsFields(c: R.Cfg)
      requires Shape() && Is(c)
      ensures last == c.last && ll == c.ll && dl == c.dl
      ensures IsMode(c.mode) && TablesOk()
    {
    }

    method DoType(ghost c: R.Cfg, input: seq<byte>, r0: Regs) returns (leave: bool, r: Regs, ghost d: R.Cfg)
      requires Shape() && RegsOk(r0, input) && Is(c) && mode == TYPE && R.Valid(c)
      requires InpOk(c, r0, input) && r0.bits < 8
      modifies codes, work, `lencode, `lenbits, `distcode, `distbits, `mode, `last, `err, `ll, `dl
      ensures Took(c, input, r0, leave, r, d)
      ensures !leave ==> Less(input, r, r0) || mode == CHECK
    {
      hide TableOk, R.FixedLens, R.Peek, R.Valid, FromBits, ToBits, Pow2, R.BlockStart, R.Step, Unread, HeldBits,
           R.Aligned, Is;
      R.StepCases(c);
      IsFields(c);
      InpIsUnread(c, r0, input);
      r := r0;
      if last {
        r := ByteBits(input, r);
        d := R.Went(c);
        GoCheck(d);
        return false, r, d;
      }
      var ok;
      ok, r := NeedBits(input, r, 3);
      if !ok { return true, r, R.Still(c); }
      var b, t;
      b, r := TakeBits(input, r, 1);
      Peek1(c.inp);
      last := b == 1;
      t, r := TakeBits(input, r, 2);
      TwoBits(c.inp[1..]);
      BlockType(c.(last := last, inp := c.inp[3..]), t);
      StartInp(c.(last := last, inp := c.inp[3..]), t, r, input);
      return false, r, R.Went(c);
    }

    /** The format machine was followed from c to d, which the state now stands for; it was
        left either because d cannot go on for lack of input, or holding only few bits. */
    ghost predicate Took(c: R.Cfg, input: seq<byte>, r0: Regs, leave: bool, r: Regs, d: R.Cfg)
      requires Shape() && RegsOk(r0, input)
      reads this, lens, codes
    {
      && RegsOk(r, input) && r.ipos >= r0.ipos && r.bits + 8 * (|input| - r.ipos) <= r0.bits + 8 * (|input| - r0.ipos)
      && R.Reaches(c, d) && R.Valid(d) && Is(d) && InpOk(d, r, input) && d.out == c.out
      && (if leave then r.ipos == |input| && R.Step(d) == R.None else r.bits < 8 || mode == BAD)
      && (mode == COPY_ || mode == COPY ==> r.bits == 0) && (leave ==> mode != CHECK)
    }

    method DoStored(ghost c: R.Cfg, input: seq<byte>, r0: Regs) returns (leave: bool, r: Regs, ghost d: R.Cfg)
      requires Shape() && RegsOk(r0, input) && Is(c) && mode == STORED && R.Valid(c) && InpOk(c, r0, input)
      modifies `mode, `length, `err
      ensures Took(c, input, r0, leave, r, d) && (!leave ==> r.bits == 0 && Less(input, r, r0))
    {
      hide TableOk, R.Peek, R.Valid, FromBits, ToBits, Pow2, R.Step, Unread, HeldBits, Low, Shr, R.Aligned, Is;
      R.StepCases(c);
      IsFields(c);
      r := ByteBits(input, r0);
      var ok;
      ok, r := NeedBits(input, r, 32);
      if !ok { return true, r, R.Still(c); }
      StoredLengths(r, input);
      var len, nlen := Low(r.hold, 16), Shr(r.hold, 16);
      Dropped(r, input, 32);
      r := DropBits(r, 32);
      d := R.Went(c);
      if len != 0xffff - nlen {
        GoBad(c, R.InvalidStoredLengths);
      } else {
        GoCopy(d, len);
      }
      leave := false;
    }

    method TableMode(ghost c: R.Cfg, n: nat, m: nat, k: nat)
      requires Shape() && mode == TABLE && c.last == last && c.ll == ll && c.dl == dl
      modifies `mode, `nlen, `ndist, `ncode, `have, `err
      ensures Is(R.TableStart(c, n, m, k)) && (mode == BAD || mode == LENLENS)
    {
      nlen, ndist, ncode := n, m, k;
      if nlen > 286 || ndist > 30 {
        err := R.TooManySymbols;
        mode := BAD;
        return;
      }
      have := 0;
      mode := LENLENS;
    }

    method DoTable(ghost c: R.Cfg, input: seq<byte>, r0: Regs) returns (leave: bool, r: Regs, ghost d: R.Cfg)
      requires Shape() && RegsOk(r0, input) && Is(c) && mode == TABLE && R.Valid(c) && InpOk(c, r0, input)
      requires r0.bits < 14
      modifies `mode, `nlen, `ndist, `ncode, `have, `err
      ensures Took(c, input, r0, leave, r, d) && (!leave ==> Less(input, r, r0))
    {
      hide TableOk, R.Peek, R.Valid, FromBits, ToBits, Pow2, R.Step, Unread, HeldBits, R.Aligned, R.TableStart, Is,
           InpOk;
      R.StepCases(c);
      IsFields(c);
      InpIsUnread(c, r0, input);
      var ok;
      ok, r := NeedBits(input, r0, 14);
      InpIsUnread(c, r, input);
      if !ok { return true, r, R.Still(c); }
      r, d := HeldTable(c, input, r);
      leave := false;
    }

    method HeldTable(ghost c: R.Cfg, input: seq<byte>, r0: Regs) returns (r: Regs, ghost d: R.Cfg)
      requires Shape() && RegsOk(r0, input) && Is(c) && mode == TABLE && R.Valid(c) && InpOk(c, r0, input)
      requires 14 <= r0.bits < 22
      modifies `mode, `nlen, `ndist, `ncode, `have, `err
      ensures Took(c, input, r0, false, r, d) && Less(input, r, r0)
    {
      hide TableOk, R.Peek, R.Valid, FromBits, ToBits, Pow2, R.Step, Unread, HeldBits, R.Aligned, R.TableStart, Is,
           InpOk;
      R.StepCases(c);
      IsFields(c);
      InpIsUnread(c, r0, input);
      d := R.Went(c);
      var n, m, k;
      n, m, k, r := TableFields(input, r0);
      TableMode(c.(inp := c.inp[14..]), n, m, k);
      TableStartInp(c.(inp := c.inp[14..]), n, m, k, r, input);
    }

    /** One turn of the loop that reads the lengths of the code length code. */
    method LenLensOne(ghost c: R.Cfg, input: seq<byte>, r0: Regs) returns (leave: bool, r: Regs, ghost d: R.Cfg)
      requires Shape() && RegsOk(r0, input) && Is(c) && mode == LENLENS && R.Valid(c) && InpOk(c, r0, input)
      requires r0.bits < 8 && have < ncode
      modifies `have, lens
      ensures Took(c, input, r0, leave, r, d) && (!leave ==> d.mode.LenLens? && have == old(have) + 1)
    {
      hide TableOk, R.Peek, R.Valid, FromBits, ToBits, Pow2, R.Step, Unread, HeldBits, R.Aligned, R.Order;
      R.StepCases(c);
      NcodeBound(c);
      var ok;
      ok, r := NeedBits(input, r0, 3);
      if !ok { return true, r, R.Still(c); }
      d := R.Went(c);
      var v;
      v, r := TakeBits(input, r, 3);
      StoreLength(v);
      leave := false;
    }

    method StoreLength(v: nat)
      requires Shape() && have < 19
      modifies `have, lens
      ensures have == old(have) + 1 && Scrambled(lens[..], have) == old(Scrambled(lens[..], have)) + [v]
    {
      forall i | 0 <= i < have ensures R.Order(i) != R.Order(have) {
        if R.Order(i) == R.Order(have) { R.OrderInjective(i, have); }
      }
      lens[R.Order(have)] := v;
      have := have + 1;
    }

    /** All lengths are in: build the table that decodes the code lengths. */
    method LenLensEnd(ghost c: R.Cfg, ghost cl: seq<nat>)
      requires Shape() && mode == LENLENS && c.last == last && c.ll == ll && c.dl == dl && R.Valid(c)
      requires c.mode == R.LenLens(nlen, ndist, ncode, cl) && have <= 19 && cl == Scrambled(lens[..], have)
      modifies `mode, `have, `lencode, `lenbits, `err, `bl, lens, codes, work
      ensures Is(R.CodeLensStart(c, R.Unscramble(cl))) && (mode == BAD || mode == CODELENS)
    {
      hide TableOk, R.Unscramble, R.GoodLengthCode, R.Valid, ToBits, FromBits, Is;
      FillUnused(cl);
      var ret, root, used := LengthTable(c);
      if ret != 0 {
        GoBad(c, R.InvalidCodeLengthsSet);
      } else {
        GoCodeLens(c, R.Unscramble(cl), root);
      }
    }

    method GoBad(ghost c: R.Cfg, e: R.Error)
      requires Shape() && c.last == last && c.ll == ll && c.dl == dl
      modifies `mode, `err
      ensures Is(R.Fail(c, e)) && mode == BAD
    {
      hide TableOk;
      err := e;
      mode := BAD;
    }

    method GoCodeLens(ghost c: R.Cfg, ghost b: seq<nat>, root: nat)
      requires Shape() && c.last == last && c.ll == ll && c.dl == dl && c.mode.LenLens?
      requires c.mode.nlen == nlen && c.mode.ndist == ndist && TableOk(codes[..], 0, root, CODES, b)
      modifies `mode, `have, `lencode, `lenbits, `bl
      ensures Is(c.(mode := R.CodeLens(nlen, ndist, b, []))) && mode == CODELENS
    {
      hide TableOk;
      bl := b;
      have := 0;
      lencode, lenbits := 0, root;
      mode := CODELENS;
    }

    method FillUnused(ghost cl: seq<nat>)
      requires Shape() && have <= 19 && cl == Scrambled(lens[..], have)
      modifies `have, lens
      ensures lens[..19] == R.Unscramble(cl)
    {
      hide R.Order, R.Unscramble;
      while have < 19
        invariant old(have) <= have <= 19
        invariant forall i :: 0 <= i < have ==> lens[R.Order(i)] == if i < old(have) then cl[i] else 0
      {
        forall i | 0 <= i < have ensures R.Order(i) != R.Order(have) {
          if R.Order(i) == R.Order(have) { R.OrderInjective(i, have); }
        }
        lens[R.Order(have)] := 0;
        have := have + 1;
      }
      forall s | 0 <= s < 19 ensures lens[s] == R.Unscramble(cl)[s] {
        R.UnscrambleAt(cl, R.OrderOf(s));
      }
    }

    method LengthTable(ghost c: R.Cfg) returns (ret: int, root: nat, used: nat)
      requires Shape() && R.Valid(c) && c.mode.LenLens? && lens[..19] == R.Unscramble(c.mode.cl)
      modifies codes, work
      ensures ret == 0 <==> R.GoodLengthCode(R.Unscramble(c.mode.cl))
      ensures ret == 0 ==> TableOk(codes[..], 0, root, CODES, R.Unscramble(c.mode.cl))
    {
      hide TableOk, NotOver, Complete, Sparse, TableEntries;
      ghost var b := R.Unscramble(c.mode.cl);
      forall s | 0 <= s < 19 ensures b[s] <= 7 {
        R.UnscrambleAt(c.mode.cl, R.OrderOf(s));
      }
      assert Pow2(7) == 128;
      ret, root, used := InflateTable(CODES, lens[..19], codes, 0, 7, work);
      if ret == 0 {
        TableExtend(codes[..used], codes[..], 0, root, CODES, b);
      }
    }

    /** Going on from d is going on from c. */
    lemma {:induction false} TookTrans(c: R.Cfg, input: seq<byte>, r0: Regs, d: R.Cfg, r: Regs, leave: bool,
        r2: Regs, d2: R.Cfg)
      requires Shape() && RegsOk(r0, input) && RegsOk(r, input) && R.Reaches(c, d) && c.out == d.out
      requires r0.ipos <= r.ipos && r.bits + 8 * (|input| - r.ipos) <= r0.bits + 8 * (|input| - r0.ipos)
      requires Took(d, input, r, leave, r2, d2)
      ensures Took(c, input, r0, leave, r2, d2)
    {
      hide Is, InpOk, R.Reaches, R.Valid, R.Step;
      R.ReachesTrans(c, d, d2);
    }

    method DoLenLens(ghost c: R.Cfg, input: seq<byte>, r0: Regs) returns (leave: bool, r: Regs, ghost d: R.Cfg)
      requires Shape() && RegsOk(r0, input) && Is(c) && mode == LENLENS && R.Valid(c) && InpOk(c, r0, input)
          && r0.bits < 8
      modifies `mode, `have, `lencode, `lenbits, `err, `bl, lens, codes, work
      ensures Took(c, input, r0, leave, r, d) && (!leave ==> mode == BAD || mode == CODELENS)
    {
      hide R.Valid, R.Step, R.Reaches, TableOk, TablesOk, R.CodeLensStart, R.Unscramble;
      leave, r, d := false, r0, R.Still(c);
      NcodeBound(c);
      while have < ncode
        invariant Took(c, input, r0, false, r, d) && mode == LENLENS && have <= ncode <= 19 && r.bits < 8
        decreases ncode - have
      {
        ghost var e, q := d, r;
        leave, r, d := LenLensOne(d, input, r);
        TookTrans(c, input, r0, e, q, leave, r, d);
        if leave { return; }
        NcodeBound(d);
      }
      R.StepCases(d);
      ghost var e, cl := d, d.mode.cl;
      d := R.Went(e);
      LenLensEnd(e, cl);
      CodeLensStartInp(e, R.Unscramble(cl), r, input);
      R.ReachesTrans(c, e, d);
    }

    // ---- code lengths ----

    lemma {:induction false} IsCodeLens(c: R.Cfg)
      requires Shape() && mode == CODELENS
      ensures Is(c) <==> (last == c.last && ll == c.ll && dl == c.dl && have <= 320
                          && c.mode == R.CodeLens(nlen, ndist, bl, lens[..have])
                          && TableOk(codes[..], lencode, lenbits, CODES, bl))
    {
      hide TableOk;
    }

    method PushLength(ghost c: R.Cfg, v: nat, ghost n: nat)
      requires Shape() && mode == CODELENS && Is(c) && R.Valid(c) && have < nlen + ndist && n <= |c.inp|
      modifies `have, lens
      ensures Is(R.PushLen(c, v, n)) && have == old(have) + 1
    {
      hide TableOk, Is, R.Valid;
      IsCodeLens(c);
      CodeLensBound(c);
      ghost var before := lens[..have];
      lens[have] := v;
      have := have + 1;
      assert lens[..have] == before + [v];
      IsCodeLens(R.PushLen(c, v, n));
    }

    method RepeatLength(ghost c: R.Cfg, v: nat, k: nat)
      requires Shape() && mode == CODELENS && Is(c) && R.Valid(c)
      modifies `have, `mode, `err, lens
      ensures Is(R.RepeatFill(c, v, k))
      ensures mode == BAD || (mode == CODELENS && have == old(have) + k)
    {
      hide TableOk, Is, R.Valid;
      IsFields(c);
      IsCodeLens(c);
      CodeLensBound(c);
      if have + k > nlen + ndist {
        GoBad(c, R.InvalidRepeat);
        return;
      }
      var copy: nat := k;
      ghost var before := lens[..have];
      while copy != 0
        invariant copy <= k && have == old(have) + (k - copy) && have + copy <= 320
        invariant lens[..have] == before + R.Fill(k - copy, v)
        invariant mode == CODELENS && err == old(err)
        decreases copy
      {
        lens[have] := v;
        have := have + 1;
        copy := copy - 1;
        assert lens[..have] == before + R.Fill(k - copy, v);
      }
      IsCodeLens(c.(mode := c.mode.(lens := c.mode.lens + R.Fill(k, v))));
    }

    /** A repeat code, with its count held. */
    method CodeLensRepeat(ghost c: R.Cfg, s: nat, n: nat, input: seq<byte>, r0: Regs) returns (r: Regs)
      requires Shape() && mode == CODELENS && Is(c) && R.Valid(c) && have < nlen + ndist && 16 <= s <= 18
      requires RegsOk(r0, input) && c.inp == Unread(r0, input) && n + R.RepeatBits(s) <= r0.bits
      modifies `have, `mode, `err, lens
      ensures Is(R.RepeatLens(c, s, n)) && RegsOk(r, input) && InpOk(R.RepeatLens(c, s, n), r, input)
      ensures r.ipos == r0.ipos && r.bits <= r0.bits && (mode != BAD ==> r.bits == r0.bits - (n + R.RepeatBits(s)))
      ensures mode == BAD || (mode == CODELENS && have > old(have))
    {
      hide R.Valid, R.Fill, R.Peek, R.RepeatFill, Is, IsMode, Unread, Pow2, R.Aligned, InpOk;
      CodeLensHave(c);
      Dropped(r0, input, n);
      r := DropBits(r0, n);
      ghost var e := c.(inp := c.inp[n + R.RepeatBits(s)..]);
      if s == 16 && have == 0 {
        GoBad(c, R.InvalidRepeat);
        FailInp(c, R.InvalidRepeat, r, input);
        return;
      }
      var v := if s == 16 then lens[have - 1] else 0;
      var k;
      k, r := TakeBits(input, r, R.RepeatBits(s));
      k := R.RepeatBase(s) + k;
      assert c.inp[n..][R.RepeatBits(s)..] == c.inp[n + R.RepeatBits(s)..];
      WithInp(c, e.inp);
      RepeatLength(e, v, k);
      RepeatFillInp(e, v, k, r, input);
    }

    lemma {:induction false} CodeLensHave(c: R.Cfg)
      requires Shape() && mode == CODELENS && Is(c) && R.Valid(c)
      ensures have <= 320 && c.mode == R.CodeLens(nlen, ndist, bl, lens[..have])
      ensures last == c.last && ll == c.ll && dl == c.dl
    {
      hide TableOk;
    }

    lemma {:induction false} WithInp(c: R.Cfg, b: seq<bool>)
      requires Shape() && Is(c) && R.Valid(c)
      ensures Is(c.(inp := b)) && R.Valid(c.(inp := b))
    {
      hide TableOk;
    }

    /** One turn of the loop that reads code lengths. */
    method CodeLensOne(ghost c: R.Cfg, input: seq<byte>, r0: Regs) returns (leave: bool, r: Regs, ghost d: R.Cfg)
      requires Shape() && RegsOk(r0, input) && Is(c) && mode == CODELENS && R.Valid(c) && InpOk(c, r0, input)
      requires have < nlen + ndist && Fresh(bl, r0)
      modifies `have, `mode, `err, lens
      ensures Took(c, input, r0, leave, r, d) && (!leave ==> mode == BAD || (mode == CODELENS && have > old(have)))
    {
      hide R.Valid, R.Step, TableOk, Is, IsMode, InpOk, Unread, DecodeSym, R.PushLen, R.RepeatLens, Entry, Fresh,
           Pow2, R.Reaches, HeldBits;
      IsFields(c);
      IsCodeLens(c);
      R.StepCases(c);
      CodeLensBound(c);
      InpIsUnread(c, r0, input);
      var ok, here, n;
      ok, r, here, n := LookUp(codes, lencode, lenbits, CODES, bl, input, r0);
      LengthEntry(here);
      InpIsUnread(c, r, input);
      if !ok { return true, r, R.Still(c); }
      if here.val < 16 {
        d := R.Went(c);
        Dropped(r, input, n);
        r := DropBits(r, n);
        PushLength(c, here.val, n);
        PushLenInp(c, here.val, n, r, input);
        return false, r, d;
      }
      ok, r := NeedBits(input, r, n + R.RepeatBits(here.val));
      InpIsUnread(c, r, input);
      if !ok { return true, r, R.Still(c); }
      d := R.Went(c);
      RepeatLensOut(c, here.val, n);
      r := CodeLensRepeat(c, here.val, n, input, r);
      leave := false;
    }

    /** Both tables of the block, when its codes can be used. */
    method BlockTables(nl: nat) returns (ret: int, at: nat, root: nat, ret2: int, root2: nat)
      requires Shape() && 257 <= nl <= 286 && nl <= have <= nl + 30 && have <= 320 && LensOk(lens[..have])
      modifies codes, work
      ensures ret == 0 <==> R.Usable(LENS, lens[..nl], 9)
      ensures ret == 0 ==> (ret2 == 0 <==> R.Usable(DISTS, lens[nl..have], 6))
      ensures ret == 0 && ret2 == 0
          ==> TableOk(codes[..], 0, root, LENS, lens[..nl])
              && TableOk(codes[..], at, root2, DISTS, lens[nl..have])
    {
      hide TableOk, NotOver, Complete, Sparse, Fits;
      ghost var L, D := lens[..nl], lens[nl..have];
      assert LensOk(L) && LensOk(D) && SymbolsFit(LENS, |L|) && SymbolsFit(DISTS, |D|);
      hide LensOk;
      ret2, root2 := 0, 1;
      ret, root, at := InflateTable(LENS, lens[..nl], codes, 0, 9, work);
      if ret != 0 { return; }
      ghost var T := codes[..at];
      var used;
      ret2, root2, used := InflateTable(DISTS, lens[nl..have], codes, at, 6, work);
      if ret2 != 0 { return; }
      assert codes[..at] == T;
      TableExtend(codes[..at], codes[..], 0, root, LENS, L);
      TableExtend(codes[..at + used], codes[..], at, root2, DISTS, D);
    }

    method GoLen(ghost c: R.Cfg, ghost l: seq<nat>, ghost d: seq<nat>, at: nat, root: nat, root2: nat)
      requires Shape() && c.last == last && TableOk(codes[..], 0, root, LENS, l)
          && TableOk(codes[..], at, root2, DISTS, d)
      modifies `mode, `lencode, `lenbits, `distcode, `distbits, `ll, `dl
      ensures Is(c.(mode := R.Len, ll := l, dl := d)) && mode == LEN_
    {
      hide TableOk;
      lencode, lenbits, distcode, distbits := 0, root, at, root2;
      ll, dl := l, d;
      mode := LEN_;
    }

    /** All code lengths are in: check them and build the tables of the block. */
    method CodeLensEnd(ghost c: R.Cfg)
      requires Shape() && mode == CODELENS && Is(c) && R.Valid(c) && have == nlen + ndist
      modifies codes, work, `mode, `err, `lencode, `lenbits, `distcode, `distbits, `ll, `dl
      ensures c.mode.CodeLens? && |c.mode.lens| == c.mode.nlen + c.mode.ndist && c.mode.nlen >= 257
      ensures Is(R.BlockCodes(c)) && (mode == BAD || mode == LEN_)
    {
      hide TableOk, R.Usable, Is, IsMode, R.Valid;
      IsFields(c);
      CodeLensHave(c);
      CodeLensBound(c);
      if lens[256] == 0 {
        GoBad(c, R.MissingEndOfBlock);
        return;
      }
      ghost var L, D := lens[..nlen], lens[nlen..have];
      assert lens[..have][..nlen] == L && lens[..have][nlen..] == D;
      var ret, at, root, ret2, root2 := BlockTables(nlen);
      if ret != 0 {
        GoBad(c, R.InvalidLiteralSet);
      } else if ret2 != 0 {
        GoBad(c, R.InvalidDistanceSet);
      } else {
        GoLen(c, L, D, at, root, root2);
      }
    }

    method DoCodeLens(ghost c: R.Cfg, input: seq<byte>, r0: Regs) returns (leave: bool, r: Regs, ghost d: R.Cfg)
      requires Shape() && RegsOk(r0, input) && Is(c) && mode == CODELENS && R.Valid(c) && InpOk(c, r0, input)
      requires r0.bits < 8 || (have < nlen + ndist && Fresh(bl, r0))
      modifies `have, `mode, `err, lens, codes, work, `lencode, `lenbits, `distcode, `distbits, `ll, `dl
      ensures Took(c, input, r0, leave, r, d) && (!leave ==> mode == BAD || mode == LEN_)
    {
      hide R.Valid, R.Step, R.Reaches, TableOk, TablesOk, R.BlockCodes, Fresh, Is, IsMode, InpOk;
      leave, r, d := false, r0, R.Still(c);
      CodeLensHave(c);
      CodeLensBound(c);
      while have < nlen + ndist && mode != BAD
        invariant TookSoFar(c, input, r0, r, d) && (mode == BAD || (mode == CODELENS && have <= nlen + ndist))
        invariant mode != BAD ==> r.bits < 8 || (have < nlen + ndist && Fresh(bl, r))
        invariant mode == BAD ==> Took(c, input, r0, false, r, d)
        decreases if mode == BAD then 0 else 1 + nlen + ndist - have
      {
        if r.bits < 8 { FewIsFresh(bl, r); }
        ghost var e, q := d, r;
        leave, r, d := CodeLensOne(d, input, r);
        TookTrans(c, input, r0, e, q, leave, r, d);
        if leave { return; }
        if mode != BAD {
          CodeLensHave(d);
          CodeLensBound(d);
        }
      }
      if mode == BAD { return; }
      R.StepCases(d);
      ghost var e := d;
      CodeLensHave(e);
      d := R.Went(e);
      CodeLensEnd(e);
      BlockCodesInp(e, r, input);
      R.ReachesTrans(c, e, d);
    }

    // ---- symbols ----

    /** Act on the entry of a literal or length symbol. */
    method LenMode(ghost c: R.Cfg, here: Code, ghost s: nat)
      requires Shape() && mode == LEN && Is(c) && EntryOf(LENS, here, s, 286)
      modifies `mode, `length, `extra, `err
      ensures Is(R.LenSymbol(c, s)) && (mode == LIT || mode == TYPE || mode == BAD || mode == LENEXT)
    {
      hide TableOk, Entry, R.LengthBase, R.LengthExtra, EntryOf;
      LenEntry(here, s);
      LenBranch(here, s);
      length := here.val;
      if here.op == 0 {
        mode := LIT;
      } else if here.op / 32 % 2 == 1 {
        mode := TYPE;
      } else if here.op / 64 % 2 == 1 {
        err := R.InvalidLiteralCode;
        mode := BAD;
      } else {
        extra := here.op % 16;
        mode := LENEXT;
      }
    }

    /** Act on the entry of a distance symbol. */
    method DistMode(ghost c: R.Cfg, here: Code, ghost s: nat)
      requires Shape() && mode == DIST && Is(c) && c.mode.Dist? && EntryOf(DISTS, here, s, 30)
      modifies `mode, `offset, `extra, `err
      ensures Is(R.DistSymbol(c, s)) && (mode == BAD || mode == DISTEXT)
    {
      hide TableOk, Entry, R.DistBase, R.DistExtra;
      DistEntry(here, s);
      if here.op / 64 % 2 == 1 {
        err := R.InvalidDistanceCode;
        mode := BAD;
        return;
      }
      offset := here.val;
      extra := here.op % 16;
      mode := DISTEXT;
    }

    method DoLen(ghost c: R.Cfg, input: seq<byte>, r0: Regs) returns (leave: bool, r: Regs, ghost d: R.Cfg)
      requires Shape() && RegsOk(r0, input) && Is(c) && mode == LEN && R.Valid(c) && InpOk(c, r0, input)
          && Fresh(ll, r0)
      modifies `mode, `length, `extra, `err
      ensures Took(c, input, r0, leave, r, d)
      ensures !leave ==> (mode == LIT || mode == TYPE || mode == BAD || mode == LENEXT) && Less(input, r, r0)
    {
      hide R.Valid, R.Step, TableOk, Is, IsMode, InpOk, Unread, DecodeSym, R.LenSymbol, Entry, EntryOf, Fresh, Pow2,
           R.Reaches, HeldBits;
      LenTables(c);
      R.StepCases(c);
      InpIsUnread(c, r0, input);
      var ok, here, n;
      ok, r, here, n := LookUp(codes, lencode, lenbits, LENS, ll, input, r0);
      InpIsUnread(c, r, input);
      if !ok { return true, r, R.Still(c); }
      d := R.Went(c);
      Dropped(r, input, n);
      r := DropBits(r, n);
      ghost var s := SymbolOf(LENS, c.ll, c.inp, here, 286);
      ghost var e := c.(inp := c.inp[n..]);
      WithInp(c, e.inp);
      LenMode(e, here, s);
      LenSymbolInp(e, s, r, input);
      FailAlone(c, e.inp, R.InvalidLiteralCode);
      leave := false;
    }

    method DoDist(ghost c: R.Cfg, input: seq<byte>, r0: Regs) returns (leave: bool, r: Regs, ghost d: R.Cfg)
      requires Shape() && RegsOk(r0, input) && Is(c) && mode == DIST && R.Valid(c) && InpOk(c, r0, input)
          && Fresh(dl, r0)
      modifies `mode, `offset, `extra, `err
      ensures Took(c, input, r0, leave, r, d)
      ensures !leave ==> (mode == BAD || mode == DISTEXT) && Less(input, r, r0)
    {
      hide R.Valid, R.Step, TableOk, Is, IsMode, InpOk, Unread, DecodeSym, R.DistSymbol, Entry, EntryOf, Fresh, Pow2,
           R.Reaches, HeldBits;
      DistTables(c);
      R.StepCases(c);
      InpIsUnread(c, r0, input);
      var ok, here, n;
      ok, r, here, n := LookUp(codes, distcode, distbits, DISTS, dl, input, r0);
      InpIsUnread(c, r, input);
      if !ok { return true, r, R.Still(c); }
      d := R.Went(c);
      Dropped(r, input, n);
      r := DropBits(r, n);
      ghost var s := SymbolOf(DISTS, c.dl, c.inp, here, 30);
      ghost var e := c.(inp := c.inp[n..]);
      WithInp(c, e.inp);
      DistMode(e, here, s);
      DistSymbolInp(e, s, r, input);
      FailAlone(c, e.inp, R.InvalidDistanceCode);
      leave := false;
    }

    lemma {:induction false} LenTables(c: R.Cfg)
      requires Shape() && Is(c) && mode == LEN
      ensures ll == c.ll && c.mode.Len? && TableOk(codes[..], lencode, lenbits, LENS, ll)
    {
      hide TableOk;
    }

    lemma {:induction false} DistTables(c: R.Cfg)
      requires Shape() && Is(c) && mode == DIST
      ensures dl == c.dl && c.mode == R.Dist(length) && TableOk(codes[..], distcode, distbits, DISTS, dl)
    {
      hide TableOk;
    }

    method DoLenExt(ghost c: R.Cfg, input: seq<byte>, r0: Regs) returns (leave: bool, r: Regs, ghost d: R.Cfg)
      requires Shape() && RegsOk(r0, input) && Is(c) && mode == LENEXT && R.Valid(c) && InpOk(c, r0, input)
      requires r0.bits < 8 && extra <= 15
      modifies `mode, `length
      ensures Took(c, input, r0, leave, r, d) && (!leave ==> mode == DIST)
    {
      hide R.Valid, R.Step, TableOk, Unread, Pow2, R.Reaches, HeldBits, R.Peek, ToBits, BytesBits, Scrambled, FromBits;
      R.StepCases(c);
      var ok, v;
      ok, v, r := ExtraBits(input, r0, extra);
      if !ok { return true, r, R.Still(c); }
      length := length + v;
      d := R.Went(c);
      mode := DIST;
      leave := false;
    }

    method DoDistExt(ghost c: R.Cfg, input: seq<byte>, r0: Regs) returns (leave: bool, r: Regs, ghost d: R.Cfg)
      requires Shape() && RegsOk(r0, input) && Is(c) && mode == DISTEXT && R.Valid(c) && InpOk(c, r0, input)
      requires (r0.bits < 8 || r0.bits < extra) && extra <= 15
      modifies `mode, `offset
      ensures Took(c, input, r0, leave, r, d) && (!leave ==> mode == MATCH)
    {
      hide R.Valid, R.Step, TableOk, Unread, Pow2, R.Reaches, HeldBits, R.Peek, ToBits, BytesBits, Scrambled, FromBits;
      R.StepCases(c);
      var ok, v;
      ok, v, r := ExtraBits(input, r0, extra);
      if !ok { return true, r, R.Still(c); }
      offset := offset + v;
      d := R.Went(c);
      mode := MATCH;
      leave := false;
    }

    // ---- output ----

    /** What a turn that makes output does: it follows the format machine from c to d, and
        either makes output or fails. */
    twostate predicate Gave(c: R.Cfg, d: R.Cfg, output: array<byte>, put: nat, put2: nat, hist: seq<byte>)
      requires Shape()
      reads this, lens, codes, output
    {
      && put <= put2 <= output.Length && output[..put] == old(output[..put]) && d.out == hist + output[..put2]
      && R.Reaches(c, d) && R.Valid(d) && Is(d)
      && (if mode == BAD then d.mode.Bad? && d.inp == [] && put2 == put else d.inp == c.inp && put2 > put)
    }

    method DoLit(ghost c: R.Cfg, output: array<byte>, put: nat, ghost hist: seq<byte>)
        returns (put2: nat, ghost d: R.Cfg)
      requires Shape() && Is(c) && mode == LIT && R.Valid(c) && output != window
      requires put < output.Length && c.out == hist + output[..put]
      modifies output, `mode
      ensures Gave(c, d, output, put, put2, hist) && mode == LEN
    {
      hide R.Valid, R.Step, R.Reaches, TableOk;
      R.StepCases(c);
      d := R.Went(c);
      ghost var before := output[..put];
      output[put] := length;
      put2 := put + 1;
      mode := LEN;
      assert output[..put] == before;
      assert output[..put2] == before + [c.mode.lit];
      assert d.out == hist + output[..put2];
    }

    lemma {:induction false} MatchFields(c: R.Cfg)
      requires Shape() && Is(c) && mode == MATCH && R.Valid(c)
      ensures c.mode == R.Match(length, offset) && 1 <= length <= 258 && 1 <= offset <= 32768
    {
      hide TableOk;
    }

    /** Copy a stretch of a match that starts in the window. */
    method CopyWindow(output: array<byte>, put: nat, ghost hist: seq<byte>) returns (copy: nat)
      requires Shape() && WindowOk(hist) && output != window && put < output.Length
      requires length >= 1 && put < offset <= put + whave
      modifies output
      ensures 1 <= copy <= length && put + copy <= output.Length && offset - put <= |hist|
      ensures output[..put] == old(output[..put])
      ensures forall k :: put <= k < put + copy ==> k < offset && output[k] == hist[|hist| + k - offset]
    {
      hide RingOk, RingIndex, WindowOk;
      copy := offset - put;
      ghost var dd := copy;
      var from: nat;
      RingHere(hist, dd);
      if copy > wnext {
        copy := copy - wnext;
        from := wsize - copy;
      } else {
        from := wnext - copy;
      }
      if copy > length { copy := length; }
      if copy > output.Length - put { copy := output.Length - put; }
      RingRun(hist, dd, copy);
      MemCopy(output, put, window[..], from, copy);
      forall k | put <= k < put + copy ensures output[k] == hist[|hist| + k - offset] {
        assert output[k] == window[from..from + copy][k - put];
      }
    }

    /** Copy the next stretch of a match: from the window, or from the output. */
    method CopyMatch(output: array<byte>, put: nat, ghost hist: seq<byte>) returns (copy: nat)
      requires Shape() && WindowOk(hist) && output != window && put < output.Length
      requires length >= 1 && offset >= 1 && (offset <= put || offset - put <= whave)
      modifies output
      ensures 1 <= copy <= length && put + copy <= output.Length && offset <= |hist| + put
      ensures output[..put] == old(output[..put])
      ensures hist + output[..put + copy] == R.Extend(hist + old(output[..put]), offset, copy)
    {
      hide RingOk, R.Extend, RingIndex, WindowOk;
      ghost var before := output[..put];
      if offset > put {
        copy := CopyWindow(output, put, hist);
      } else {
        copy := length;
        if copy > output.Length - put { copy := output.Length - put; }
        CopyBack(output, put, offset, copy);
      }
      assert output[..put + copy][..put] == before;
      MatchOut(hist, before, output[..put + copy], offset, copy);
    }

    method DoMatch(ghost c: R.Cfg, output: array<byte>, put: nat, ghost hist: seq<byte>)
        returns (put2: nat, ghost d: R.Cfg)
      requires Shape() && Is(c) && mode == MATCH && R.Valid(c) && output != window
      requires put < output.Length && c.out == hist + output[..put] && WindowOk(hist)
      modifies output, `length, `mode, `err
      ensures Gave(c, d, output, put, put2, hist)
      ensures mode == LEN || mode == MATCH || mode == BAD
    {
      hide R.Valid, R.Step, R.Reaches, TableOk, Is, IsMode, WindowOk, R.Extend;
      MatchFields(c);
      if offset > put && offset - put > whave {
        TooFar(hist, put);
        R.StepCases(c);
        IsFields(c);
        d := R.Went(c);
        GoBad(c, R.TooFarBack);
        return put, d;
      }
      var copy := CopyMatch(output, put, hist);
      put2 := put + copy;
      R.MatchSteps(c, copy);
      d := R.Matched(c, copy);
      MatchMode(c, copy);
    }

    method MatchMode(ghost c: R.Cfg, copy: nat)
      requires Shape() && Is(c) && mode == MATCH && R.Valid(c) && c.mode.Match? && 1 <= copy <= length == c.mode.length
      requires 1 <= c.mode.offset <= |c.out|
      modifies `mode, `length
      ensures Is(R.Matched(c, copy)) && (mode == LEN || mode == MATCH)
    {
      hide TableOk, R.Valid, R.Extend;
      length := length - copy;
      if length == 0 { mode := LEN; }
    }

    /** Bytes that are not in the window were never produced. */
    lemma {:induction false} TooFar(hist: seq<byte>, put: nat)
      requires Shape() && WindowOk(hist) && put < offset <= 32768 && offset - put > whave
      ensures offset > |hist| + put
    {
    }

    lemma {:induction false} RingHere(hist: seq<byte>, d: nat)
      requires Shape() && WindowOk(hist) && 1 <= d <= whave
      ensures wsize == WSIZE && wnext < wsize && d <= |hist| && d <= wsize
    {
    }

    lemma {:induction false} RingRun(hist: seq<byte>, d: nat, n: nat)
      requires Shape() && WindowOk(hist) && 1 <= d <= whave && n <= if d <= wnext then d else d - wnext
      ensures wsize == WSIZE
      ensures var from := if d <= wnext then wnext - d else wsize - (d - wnext);
              0 <= from && from + n <= window.Length && d <= |hist| &&
              window[from..from + n] == hist[|hist| - d..|hist| - d + n]
    {
      RingBytes(window[..], wsize, whave, wnext, hist, d, n);
    }

    // ---- the bits held between turns ----

    /** No byte is held that is not needed: fewer than eight bits, or what is held does not
        allow a step. Stored bytes are never held. */
    ghost predicate Few(c: R.Cfg, r: Regs)
      requires R.Valid(c)
      reads `mode
    {
      && (r.bits < 8 || mode == BAD || mode == STORED || R.Step(c.(inp := HeldBits(r))) == R.None)
      && (mode == COPY_ || mode == COPY ==> r.bits == 0)
    }

    lemma {:induction false} FewType(c: R.Cfg, r: Regs)
      requires Shape() && Is(c) && R.Valid(c) && Few(c, r)
      ensures mode == TYPE ==> r.bits < 8
      ensures mode == TABLE ==> r.bits < 14
      ensures mode == LENLENS ==> r.bits < 8
      ensures mode == LENEXT ==> r.bits < 8 && extra <= 15
      ensures mode == DISTEXT ==> (r.bits < 8 || r.bits < extra) && extra <= 15
      ensures mode == LIT || mode == MATCH ==> r.bits < 8
    {
      hide TableOk, R.Step, R.GoodCode, Pow2, R.Peek, R.StepMatch, R.BlockStart, R.TableStart, R.CodeLensStart,
           R.Unscramble, R.Aligned, ToBits, Scrambled;
      R.StepCases(c.(inp := HeldBits(r)));
    }

    lemma {:induction false} FewCode(c: R.Cfg, r: Regs)
      requires Shape() && Is(c) && R.Valid(c) && Few(c, r)
      ensures mode == CODELENS ==> r.bits < 8 || (have < nlen + ndist && Fresh(bl, r))
      ensures mode == LEN ==> Fresh(ll, r)
      ensures mode == DIST ==> Fresh(dl, r)
    {
      hide TableOk, R.Step, R.GoodCode, Pow2, R.Peek, R.BlockCodes, R.PushLen, R.RepeatLens, R.LenSymbol,
           R.DistSymbol, ToBits, DecodeSym;
      if r.bits < 8 {
        FewIsFresh(ll, r);
        FewIsFresh(dl, r);
      } else {
        R.StepCases(c.(inp := HeldBits(r)));
      }
    }

    /** How many turns may pass before a bit is used or a byte produced. */
    function Rank(): nat
      reads `mode
    {
      match mode
      case LENLENS => 10
      case CODELENS => 9
      case LEN_ => 8
      case LEN => 7
      case LENEXT => 6
      case DIST => 5
      case DISTEXT => 4
      case MATCH => 3
      case LIT => 3
      case COPY_ => 9
      case COPY => 8
      case TYPE => 7
      case STORED => 6
      case TABLE => 6
      case CHECK => 2
      case DONE => 1
      case BAD => 0
    }

    predicate Inputs()
      reads `mode
    {
      mode != COPY && mode != MATCH && mode != LIT && mode != DONE && mode != BAD
    }

    lemma {:induction false} TookFew(c: R.Cfg, input: seq<byte>, r0: Regs, leave: bool, r: Regs, d: R.Cfg)
      requires Shape() && RegsOk(r0, input) && Took(c, input, r0, leave, r, d)
      ensures TookSoFar(c, input, r0, r, d) && Few(d, r)
      ensures leave ==> r.ipos == |input| && R.Step(d) == R.None && mode != CHECK
    {
      hide TableOk, R.Step, R.Valid, R.Reaches, Unread, HeldBits;
      HoldValue(r, input);
      if leave {
        if mode != BAD && mode != STORED {
          InpIsUnread(d, r, input);
          assert d.(inp := HeldBits(r)) == d;
        }
      }
    }

    /** A turn of the loop in a mode that makes no output. */
    method InputTurn(ghost c: R.Cfg, input: seq<byte>, r0: Regs) returns (leave: bool, r: Regs, ghost d: R.Cfg)
      requires Shape() && RegsOk(r0, input) && Is(c) && R.Valid(c) && InpOk(c, r0, input) && Few(c, r0) && Inputs()
      modifies `mode, `last, `length, `offset, `extra, `ncode, `nlen, `ndist, `have, `lencode, `lenbits, `distcode,
          `distbits,
               `err, `ll, `dl, `bl, lens, work, codes
      ensures TookSoFar(c, input, r0, r, d) && Few(d, r)
      ensures if leave then r.ipos == |input| && R.Step(d) == R.None && mode != CHECK
          else Less(input, r, r0) || Rank() < old(Rank())
    {
      hide Is, R.Valid, InpOk, Took, TookSoFar, TableOk, Few, R.Step, RegsOk, Fresh;
      FewType(c, r0);
      FewCode(c, r0);
      match mode {
      case TYPE => leave, r, d := DoType(c, input, r0);
      case STORED => leave, r, d := DoStored(c, input, r0);
      case TABLE => leave, r, d := DoTable(c, input, r0);
      case LENLENS => leave, r, d := DoLenLens(c, input, r0);
      case CODELENS => leave, r, d := DoCodeLens(c, input, r0);
      case LEN => leave, r, d := DoLen(c, input, r0);
      case LENEXT => leave, r, d := DoLenExt(c, input, r0);
      case DIST => leave, r, d := DoDist(c, input, r0);
      case DISTEXT => leave, r, d := DoDistExt(c, input, r0);
      case LEN_ =>
        NextMode(c, input, r0, LEN);
        return false, r0, c;
      case COPY_ =>
        NextMode(c, input, r0, COPY);
        return false, r0, c;
      case CHECK =>
        NextMode(c, input, r0, DONE);
        return false, r0, c;
      }
      TookFew(c, input, r0, leave, r, d);
    }

    /** Modes that only lead to the next one. */
    method NextMode(ghost c: R.Cfg, input: seq<byte>, ghost r0: Regs, m: InflateMode)
      requires Shape() && RegsOk(r0, input) && Is(c) && R.Valid(c) && InpOk(c, r0, input) && Few(c, r0)
      requires (mode == LEN_ && m == LEN) || (mode == COPY_ && m == COPY) || (mode == CHECK && m == DONE)
      modifies `mode
      ensures TookSoFar(c, input, r0, r0, c) && mode == m && Few(c, r0)
    {
      hide R.Valid, TableOk, R.Step, Unread, R.Reaches, InpOk, HeldBits;
      R.ReachesRefl(c);
      mode := m;
    }

    /** The state stands for c, with put bytes of output made in this call. */
    ghost predicate At(c: R.Cfg, input: seq<byte>, r: Regs, output: array<byte>, put: nat, hist: seq<byte>)
      reads `last, `ll, `dl, `bl, `mode, `length, `offset, `extra, `nlen, `ndist, `ncode, `have, `err,
            `lencode, `lenbits, `distcode, `distbits, lens, codes, output
    {
      && Shape() && RegsOk(r, input) && R.Valid(c) && Is(c) && InpOk(c, r, input) && Few(c, r)
      && put <= output.Length && c.out == hist + output[..put] && output != window
    }

    method CopyLess(ghost c: R.Cfg, ghost d: R.Cfg, copy: nat)
      requires Shape() && Is(c) && mode == COPY && copy <= length
      requires d.mode == R.Copy(length - copy) && d.last == c.last && d.ll == c.ll && d.dl == c.dl
      modifies `length
      ensures Is(d)
    {
      hide TableOk;
      length := length - copy;
    }

    method CopyEnd(ghost c: R.Cfg)
      requires Shape() && Is(c) && mode == COPY
      modifies `mode
      ensures Is(c.(mode := R.Type)) && mode == TYPE
    {
      hide TableOk;
      mode := TYPE;
    }

    method CopySome(ghost c: R.Cfg, input: seq<byte>, r0: Regs, output: array<byte>, put: nat, ghost hist: seq<byte>,
        copy: nat)
      returns (r: Regs, put2: nat, ghost d: R.Cfg)
      requires At(c, input, r0, output, put, hist) && mode == COPY
      requires 1 <= copy <= length && copy <= |input| - r0.ipos && copy <= output.Length - put
      modifies `length, output
      ensures At(d, input, r, output, put2, hist) && R.Reaches(c, d) && r.ipos == r0.ipos + copy
          && r.bits == 0 == r0.bits
      ensures put2 == put + copy && output[..put] == old(output[..put])
    {
      hide R.Valid, TableOk, R.Step, Unread, R.Reaches, InpOk, Is, IsMode, HeldBits;
      CopyFields(c, r0, input);
      ghost var before := output[..put];
      MemCopy(output, put, input, r0.ipos, copy);
      r, put2 := Regs(r0.hold, 0, r0.ipos + copy), put + copy;
      ghost var bytes := input[r0.ipos..r.ipos];
      assert output[..put2] == before + bytes;
      StoredBytes(c, r0, r, input);
      d := R.Copied(c, bytes, Unread(r, input));
      InpIsUnread(d, r, input);
      CopyLess(c, d, copy);
      assert d.out == hist + output[..put2];
    }

    /** Copy stored bytes. */
    method DoCopy(ghost c: R.Cfg, input: seq<byte>, r0: Regs, output: array<byte>, put: nat, ghost hist: seq<byte>)
      returns (leave: bool, r: Regs, put2: nat, ghost d: R.Cfg)
      requires At(c, input, r0, output, put, hist) && mode == COPY
      modifies `mode, `length, output
      ensures At(d, input, r, output, put2, hist) && R.Reaches(c, d) && r.ipos >= r0.ipos
      ensures put2 >= put && output[..put] == old(output[..put])
      ensures leave
          ==> mode == COPY && r == r0 && put2 == put
              && (put == output.Length || (r.ipos == |input| && R.Step(d) == R.None))
      ensures !leave ==> (Less(input, r, r0) && put2 > put) || (put2 == put && r == r0 && Rank() < old(Rank()))
    {
      hide R.Valid, TableOk, R.Step, Unread, R.Reaches, InpOk, Is, IsMode, HeldBits;
      CopyFields(c, r0, input);
      R.StepCases(c);
      var copy := length;
      if copy == 0 {
        d := R.Went(c);
        InpIsUnread(d, r0, input);
        CopyEnd(c);
        return false, r0, put, d;
      }
      if copy > |input| - r0.ipos { copy := |input| - r0.ipos; }
      if copy > output.Length - put { copy := output.Length - put; }
      if copy == 0 {
        return true, r0, put, R.Still(c);
      }
      r, put2, d := CopySome(c, input, r0, output, put, hist, copy);
      leave := false;
    }

    lemma {:induction false} CopyFields(c: R.Cfg, r: Regs, input: seq<byte>)
      requires Shape() && Is(c) && mode == COPY && R.Valid(c) && RegsOk(r, input) && InpOk(c, r, input) && Few(c, r)
      ensures c.mode == R.Copy(length) && r.bits == 0 && r.hold == 0
          && c.inp == Unread(r, input) == BytesBits(input[r.ipos..])
      ensures |c.inp| == 8 * (|input| - r.ipos)
    {
      hide TableOk, R.Step;
      assert Pow2(0) == 1;
    }
    /** As Took, before anything is known of the bits held. */
    ghost predicate TookSoFar(c: R.Cfg, input: seq<byte>, r0: Regs, r: Regs, d: R.Cfg)
      requires Shape() && RegsOk(r0, input)
      reads this, lens, codes
    {
      && RegsOk(r, input) && r.ipos >= r0.ipos && r.bits + 8 * (|input| - r.ipos) <= r0.bits + 8 * (|input| - r0.ipos)
      && R.Reaches(c, d) && R.Valid(d) && Is(d) && InpOk(d, r, input) && d.out == c.out
    }
  }

  /** The new bytes are copies from d places back, in this call's output or before it. */
  lemma {:induction false} MatchOut(hist: seq<byte>, before: seq<byte>, after: seq<byte>, d: nat, n: nat)
    requires 1 <= d <= |hist| + |before| && |after| == |before| + n && after[..|before|] == before
    requires forall k {:trigger after[k]} :: |before| <= k < |after| ==> after[k] == if d <= k then after[k - d]
        else hist[|hist| + k - d]
    ensures hist + after == R.Extend(hist + before, d, n)
  {
    var all := hist + after;
    forall i | |hist + before| <= i < |all| ensures all[i] == all[i - d] {
      var k := i - |hist|;
      assert all[i] == after[k];
      assert all[i - d] == if d <= k then after[k - d] else hist[|hist| + k - d];
    }
    R.ExtendIs(hist + before, d, n, all);
  }

  /** here is the table entry of symbol s, or the marker of a code that does not exist,
      which reads as a symbol that is not used. */
  ghost predicate EntryOf(typ: CodeType, here: Code, s: nat, none: nat) {
    (here == INVALID && s == none) || (SymbolsFit(typ, s + 1) && here == Entry(typ, s, here.bits))
  }

  /** What the tests of an operation byte find. */
  lemma {:induction false} LenBranch(here: Code, s: nat)
    requires EntryOf(LENS, here, s, 286)
    ensures here.op == 0 <==> s < 256
    ensures here.op / 32 % 2 == 1 <==> s == 256
    ensures here.op / 64 % 2 == 1 <==> s == 256 || s > 285
  {
    hide EntryOf, R.LengthBase, R.LengthExtra;
    LenEntry(here, s);
  }

  lemma {:induction false} LenEntry(here: Code, s: nat)
    requires EntryOf(LENS, here, s, 286)
    ensures s < 256 ==> here.op == 0 && here.val == s
    ensures s == 256 ==> here.op == 96
    ensures 257 <= s <= 285
        ==> 16 <= here.op <= 21 && here.op % 16 == R.LengthExtra(s - 257)
            && here.val == R.LengthBase(s - 257)
    ensures s >= 286 ==> here.op == 64 || here.op == 203 || here.op == 77
  {
    hide LBase, LExt, R.LengthBase, R.LengthExtra;
    if 257 <= s <= 285 {
      LengthOps(s - 257);
      LengthBases(s - 257);
    } else if s > 285 {
      UnusedOps();
    }
  }

  /** The tables of the decoder say what the format says. */
  lemma {:induction false} LengthOps(i: nat)
    requires i < 29
    ensures LExt(i) == 16 + R.LengthExtra(i) && R.LengthExtra(i) <= 5
  {
    hide LBase, R.LengthBase;
  }

  lemma {:induction false} LengthBases(i: nat)
    requires i < 29
    ensures LBase(i) == R.LengthBase(i)
  {
    hide LExt, R.LengthExtra;
  }

  lemma {:induction false} UnusedOps()
    ensures LExt(29) == 203 && LExt(30) == 77
  {
  }

  lemma {:induction false} DistEntry(here: Code, s: nat)
    requires EntryOf(DISTS, here, s, 30)
    ensures s <= 29 ==> 16 <= here.op <= 29 && here.op % 16 == R.DistExtra(s) && here.val == R.DistBase(s)
    ensures s >= 30 ==> here.op == 64
  {
  }

  /** The symbol behind the entry that a lookup gave. */
  ghost function SymbolOf(typ: CodeType, code: seq<nat>, b: seq<bool>, here: Code, none: nat): (s: nat)
    requires match DecodeSym(code, b)
             case Sym(s, m) => SymbolsFit(typ, s + 1) && here == Entry(typ, s, here.bits)
             case NoCode => here == INVALID
             case NeedMore => false
    ensures EntryOf(typ, here, s, none)
    ensures match DecodeSym(code, b)
            case Sym(t, m) => s == t
            case _ => s == none
  {
    match DecodeSym(code, b)
    case Sym(s, m) => s
    case _ => none
  }

  lemma {:induction false} PeekNone(b: seq<bool>)
    ensures R.Peek(b, 0) == 0 && b[0..] == b
  {
  }

  lemma {:induction false} InpIsUnread(c: R.Cfg, r: Regs, input: seq<byte>)
    requires r.ipos <= |input| && !c.mode.Bad? && !c.mode.Stored?
    ensures InpOk(c, r, input) <==> c.inp == Unread(r, input)
  {
  }

  lemma {:induction false} FailAlone(c: R.Cfg, b: seq<bool>, e: R.Error)
    ensures R.Fail(c.(inp := b), e) == R.Fail(c, e)
  {
  }

  lemma {:induction false} LenSymbolInp(c: R.Cfg, s: nat, r: Regs, input: seq<byte>)
    requires r.ipos <= |input| && c.inp == Unread(r, input)
    ensures InpOk(R.LenSymbol(c, s), r, input) && R.LenSymbol(c, s).out == c.out
    ensures s == 286 ==> R.LenSymbol(c, s) == R.Fail(c, R.InvalidLiteralCode)
  {
    hide Unread;
  }

  lemma {:induction false} DistSymbolInp(c: R.Cfg, s: nat, r: Regs, input: seq<byte>)
    requires r.ipos <= |input| && c.inp == Unread(r, input) && c.mode.Dist?
    ensures InpOk(R.DistSymbol(c, s), r, input) && R.DistSymbol(c, s).out == c.out
    ensures s == 30 ==> R.DistSymbol(c, s) == R.Fail(c, R.InvalidDistanceCode)
  {
    hide Unread;
  }

  lemma {:induction false} StoredBytes(c: R.Cfg, r0: Regs, r: Regs, input: seq<byte>)
    requires c.mode.Copy? && r0.ipos <= r.ipos <= |input| && r.ipos - r0.ipos <= c.mode.n && r0.bits == 0 && r.bits == 0
    requires c.inp == BytesBits(input[r0.ipos..])
    ensures var d := R.Copied(c, input[r0.ipos..r.ipos], Unread(r, input));
            R.Valid(c) && R.Valid(d) && R.Reaches(c, d)
  {
    hide R.Valid, R.Reaches, BytesBits;
    var bytes, rest := input[r0.ipos..r.ipos], input[r.ipos..];
    BytesBitsConcat(bytes, rest);
    assert input[r0.ipos..] == bytes + rest;
    assert Unread(r, input) == BytesBits(rest);
    R.CopySteps(c, bytes, Unread(r, input));
    assert R.Valid(c) by { CopyValid(c); }
  }

  lemma {:induction false} CopyValid(c: R.Cfg)
    requires c.mode.Copy?
    ensures R.Valid(c)
  {
  }

  lemma {:induction false} BlockCodesInp(c: R.Cfg, r: Regs, input: seq<byte>)
    requires r.ipos <= |input| && InpOk(c, r, input)
    requires c.mode.CodeLens? && |c.mode.lens| == c.mode.nlen + c.mode.ndist && c.mode.nlen >= 257
    ensures InpOk(R.BlockCodes(c), r, input) && R.BlockCodes(c).out == c.out
  {
    hide Unread, R.Usable;
  }

  lemma {:induction false} RepeatLensOut(c: R.Cfg, s: nat, n: nat)
    requires c.mode.CodeLens? && n + R.RepeatBits(s) <= |c.inp|
    ensures R.RepeatLens(c, s, n).out == c.out
  {
    hide R.Peek;
  }

  lemma {:induction false} CodeLensBound(c: R.Cfg)
    requires R.Valid(c) && c.mode.CodeLens?
    ensures c.mode.nlen <= 286 && c.mode.ndist <= 30 && c.mode.nlen >= 257 && |c.mode.bl| == 19
    ensures |c.mode.lens| <= c.mode.nlen + c.mode.ndist && LensOk(c.mode.lens)
  {
  }

  lemma {:induction false} LengthEntry(here: Code)
    ensures forall s: nat :: s < 19 && here == Entry(CODES, s, here.bits) ==> here.val == s
    ensures INVALID.val == 0
  {
  }

  lemma {:induction false} FailInp(c: R.Cfg, e: R.Error, r: Regs, input: seq<byte>)
    requires r.ipos <= |input|
    ensures InpOk(R.Fail(c, e), r, input) && R.Fail(c, e).out == c.out
  {
    hide Unread;
  }

  lemma {:induction false} RepeatFillInp(c: R.Cfg, v: nat, k: nat, r: Regs, input: seq<byte>)
    requires r.ipos <= |input| && c.mode.CodeLens? && c.inp == Unread(r, input)
    ensures InpOk(R.RepeatFill(c, v, k), r, input) && R.RepeatFill(c, v, k).out == c.out
  {
    hide Unread;
  }

  lemma {:induction false} PushLenInp(c: R.Cfg, v: nat, n: nat, r: Regs, input: seq<byte>)
    requires r.ipos <= |input| && c.mode.CodeLens? && n <= |c.inp| && c.inp[n..] == Unread(r, input)
    ensures InpOk(R.PushLen(c, v, n), r, input) && R.PushLen(c, v, n).out == c.out
  {
    hide Unread;
  }

  lemma {:induction false} CodeLensStartInp(c: R.Cfg, b: seq<nat>, r: Regs, input: seq<byte>)
    requires r.ipos <= |input| && c.mode.LenLens? && c.inp == Unread(r, input)
    ensures InpOk(R.CodeLensStart(c, b), r, input) && R.CodeLensStart(c, b).out == c.out
  {
    hide Unread;
  }

  lemma {:induction false} NcodeBound(c: R.Cfg)
    requires R.Valid(c) && c.mode.LenLens?
    ensures c.mode.ncode <= 19 && |c.mode.cl| <= c.mode.ncode
  {
  }

  lemma {:induction false} TableStartInp(c: R.Cfg, nlen: nat, ndist: nat, ncode: nat, r: Regs, input: seq<byte>)
    requires r.ipos <= |input| && c.mode.Table? && c.inp == Unread(r, input)
    ensures InpOk(R.TableStart(c, nlen, ndist, ncode), r, input) && R.TableStart(c, nlen, ndist, ncode).out == c.out
  {
    hide Unread;
  }

  method TableFields(input: seq<byte>, r0: Regs) returns (nlen: nat, ndist: nat, ncode: nat, r: Regs)
    requires RegsOk(r0, input) && 14 <= r0.bits
    ensures var b := Unread(r0, input);
            nlen == R.Peek(b, 5) + 257 && ndist == R.Peek(b[5..], 5) + 1 && ncode == R.Peek(b[10..], 4) + 4
    ensures RegsOk(r, input) && Unread(r, input) == Unread(r0, input)[14..]
    ensures r.bits == r0.bits - 14 && r.ipos == r0.ipos
  {
    hide R.Peek, Unread, Pow2;
    ghost var b := Unread(r0, input);
    nlen, r := TakeBits(input, r0, 5);
    nlen := nlen + 257;
    ndist, r := TakeBits(input, r, 5);
    ndist := ndist + 1;
    assert b[5..][5..] == b[10..];
    ncode, r := TakeBits(input, r, 4);
    ncode := ncode + 4;
    assert b[10..][4..] == b[14..];
  }

  lemma {:induction false} StoredLengths(r: Regs, input: seq<byte>)
    requires RegsOk(r, input) && r.bits == 32
    ensures |Unread(r, input)| >= 32
    ensures Low(r.hold, 16) == R.Peek(Unread(r, input), 16)
    ensures Shr(r.hold, 16) == R.Peek(Unread(r, input)[16..], 16)
    ensures Shr(r.hold, 16) <= 0xffff
  {
    PeekHold(r, input, 16);
    var h := HeldBits(r);
    FromToBits(r.hold, 32);
    LowSmall(r.hold, 32);
    FromBitsTakeDrop(h, 16);
    assert Unread(r, input)[16..][..16] == h[16..];
    assert Pow2(8) == 256 && Pow2(12) == 4096 && Pow2(16) == 65536;
  }
}
