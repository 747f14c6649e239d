/** The run-length form in which the code lengths of a dynamic block travel (RFC 1951 section
    3.2.7; scan_tree and send_tree of trees.c). */
module CodeLengths {
  import opened Bits
  import opened Canonical
  import InfTrees
  import R = Rfc1951

  /** A length, the previous length k times more, or k zeros in one of two ranges. */
  datatype Op = One(len: nat) | Repeat(k: nat) | ZerosShort(k: nat) | ZerosLong(k: nat)

  ghost predicate OpOk(op: Op) {
    match op
    case One(len) => len <= 15
    case Repeat(k) => 3 <= k <= 6
    case ZerosShort(k) => 3 <= k <= 10
    case ZerosLong(k) => 11 <= k <= 138
  }

  function OpSymbol(op: Op): nat {
    match op
    case One(len) => len
    case Repeat(k) => 16
    case ZerosShort(k) => 17
    case ZerosLong(k) => 18
  }

  function OpExtra(op: Op): (e: (nat, nat))
    requires OpOk(op)
    ensures e.0 < Pow2(e.1) && e.1 <= 7
  {
    assert Pow2(2) == 4 && Pow2(3) == 8 && Pow2(7) == 128;
    match op
    case One(len) => (0, 0)
    case Repeat(k) => (k - 3, 2)
    case ZerosShort(k) => (k - 3, 3)
    case ZerosLong(k) => (k - 11, 7)
  }

  /** The lengths after op: a repeat needs a length to repeat. */
  ghost predicate OpFits(lens: seq<nat>, op: Op) {
    OpOk(op) && (op.Repeat? ==> lens != [])
  }

  function Unroll(lens: seq<nat>, op: Op): seq<nat>
    requires OpFits(lens, op)
  {
    match op
    case One(len) => lens + [len]
    case Repeat(k) => lens + R.Fill(k, lens[|lens| - 1])
    case ZerosShort(k) => lens + R.Fill(k, 0)
    case ZerosLong(k) => lens + R.Fill(k, 0)
  }

  ghost predicate AllFit(lens: seq<nat>, ops: seq<Op>)
    decreases |ops|, 0
  {
    ops == [] || (AllFit(lens, ops[..|ops| - 1]) && OpFits(UnrollAll(lens, ops[..|ops| - 1]), ops[|ops| - 1]))
  }

  function UnrollAll(lens: seq<nat>, ops: seq<Op>): (r: seq<nat>)
    requires AllFit(lens, ops)
    ensures lens <= r
    decreases |ops|, 1
  {
    if ops == [] then lens else Unroll(UnrollAll(lens, ops[..|ops| - 1]), ops[|ops| - 1])
  }

  ghost predicate Sendable(bl: seq<nat>, ops: seq<Op>) {
    forall i :: 0 <= i < |ops| ==> OpOk(ops[i]) && Used(bl, OpSymbol(ops[i]))
  }

  function OpBits(bl: seq<nat>, op: Op): seq<bool>
    requires OpOk(op) && Used(bl, OpSymbol(op))
  {
    CodeBits(bl, OpSymbol(op)) + ToBits(OpExtra(op).0, OpExtra(op).1)
  }

  function OpsBits(bl: seq<nat>, ops: seq<Op>): seq<bool>
    requires Sendable(bl, ops)
  {
    if ops == [] then [] else OpsBits(bl, ops[..|ops| - 1]) + OpBits(bl, ops[|ops| - 1])
  }

  // ---- reading back ----

  lemma {:induction false} PeekField(v: nat, n: nat, rest: seq<bool>)
    requires v < Pow2(n)
    ensures var b := ToBits(v, n) + rest; R.Peek(b, n) == v && b[n..] == rest
  {
    FromToBits(v, n);
    LowSmall(v, n);
    assert (ToBits(v, n) + rest)[..n] == ToBits(v, n);
  }

  /** The machine has read lens so far and has total lengths to read. */
  ghost predicate Reading(c: R.Cfg, bl: seq<nat>, lens: seq<nat>, total: nat) {
    R.Valid(c) && c.mode.CodeLens? && c.mode.bl == bl && c.mode.lens == lens && c.mode.nlen + c.mode.ndist == total
  }

  /** What the machine does with a decoded operation is to unroll it. */
  lemma {:induction false} OpMeaning(c: R.Cfg, lens: seq<nat>, op: Op, n: nat, rest: seq<bool>)
    requires c.mode.CodeLens? && c.mode.lens == lens && OpFits(lens, op)
        && |Unroll(lens, op)| <= c.mode.nlen + c.mode.ndist
    requires n <= |c.inp| && c.inp[n..] == ToBits(OpExtra(op).0, OpExtra(op).1) + rest
    ensures op.One? ==> R.PushLen(c, op.len, n) == c.(mode := c.mode.(lens := Unroll(lens, op)), inp := rest)
    ensures !op.One? ==> n + R.RepeatBits(OpSymbol(op)) <= |c.inp| &&
                         R.RepeatLens(c, OpSymbol(op), n) == c.(mode := c.mode.(lens := Unroll(lens, op)), inp := rest)
  {
    hide Pow2, ToBits, R.Peek;
    var x := OpExtra(op);
    PeekField(x.0, x.1, rest);
    assert c.inp[n + x.1..] == c.inp[n..][x.1..];
  }

  lemma {:induction false} OpDecodes(bl: seq<nat>, op: Op, b: seq<bool>, rest: seq<bool>)
    requires NotOver(bl) && OpOk(op) && Used(bl, OpSymbol(op)) && b == OpBits(bl, op) + rest
    ensures var n := bl[OpSymbol(op)];
            DecodeSym(bl, b) == Sym(OpSymbol(op), n) && n <= |b|
                && b[n..] == ToBits(OpExtra(op).0, OpExtra(op).1) + rest
  {
    hide CodeBits, NotOver, DecodeSym, ToBits, OpExtra, OpSymbol;
    var f := ToBits(OpExtra(op).0, OpExtra(op).1);
    assert b == CodeBits(bl, OpSymbol(op)) + (f + rest);
    DecodeCode(bl, OpSymbol(op), f + rest);
  }

  lemma {:induction false} ReadOp(c: R.Cfg, bl: seq<nat>, lens: seq<nat>, total: nat, op: Op, rest: seq<bool>)
    requires Reading(c, bl, lens, total) && OpFits(lens, op) && Used(bl, OpSymbol(op)) && |Unroll(lens, op)| <= total
    requires c.inp == OpBits(bl, op) + rest
    ensures c.mode.CodeLens?
    ensures var d := c.(mode := c.mode.(lens := Unroll(lens, op)), inp := rest);
            R.Valid(d) && R.Reaches(c, d) && Reading(d, bl, Unroll(lens, op), total)
  {
    hide R.Step, R.Reaches, NotOver, DecodeSym, R.Valid, R.RepeatLens, R.PushLen, Unroll, OpExtra, OpBits, ToBits,
         R.RepeatBits;
    R.CodeLensCase(c);
    UnrollGrows(lens, op);
    OpDecodes(bl, op, c.inp, rest);
    OpMeaning(c, lens, op, bl[OpSymbol(op)], rest);
    var d := R.Went(c);
  }

  lemma {:induction false} ReadOps(c: R.Cfg, bl: seq<nat>, lens: seq<nat>, total: nat, ops: seq<Op>, rest: seq<bool>)
    requires Reading(c, bl, lens, total) && AllFit(lens, ops) && Sendable(bl, ops) && |UnrollAll(lens, ops)| <= total
    requires c.inp == OpsBits(bl, ops) + rest
    ensures c.mode.CodeLens?
    ensures var d := c.(mode := c.mode.(lens := UnrollAll(lens, ops)), inp := rest);
            R.Valid(d) && R.Reaches(c, d) && Reading(d, bl, UnrollAll(lens, ops), total)
    decreases |ops|
  {
    hide R.Step, R.Reaches, R.Valid, Unroll, OpBits, OpFits, OpOk, OpSymbol;
    if ops == [] {
      assert c.inp == rest;
      R.ReachesRefl(c);
    } else {
      var n := |ops| - 1;
      var op := ops[n];
      var b := OpBits(bl, op);
      var some := UnrollAll(lens, ops[..n]);
      assert c.inp == OpsBits(bl, ops[..n]) + (b + rest);
      UnrollGrows(some, op);
      ReadOps(c, bl, lens, total, ops[..n], b + rest);
      var d := c.(mode := c.mode.(lens := some), inp := b + rest);
      ReadOp(d, bl, some, total, op, rest);
      R.ReachesTrans(c, d, d.(mode := d.mode.(lens := Unroll(some, op)), inp := rest));
    }
  }

  lemma {:induction false} UnrollGrows(lens: seq<nat>, op: Op)
    requires OpFits(lens, op)
    ensures lens < Unroll(lens, op)
  {
  }

  // ---- the runs that are sent ----

  /** Where the scan of a tree is: operations so far, the last length sent, the repeats of
      the present one not yet sent, and the limits for it. */
  datatype Scan = Scan(ops: seq<Op>, prevlen: int, count: nat, maxCount: nat, minCount: nat)

  /** The length after position n, or the guard behind the last one. */
  function NextLen(lens: seq<nat>, n: nat): nat {
    if n + 1 < |lens| then lens[n + 1] else 0xffff
  }

  function Ones(k: nat, len: nat): (ops: seq<Op>)
    ensures |ops| == k
  {
    seq(k, i => One(len))
  }

  /** What is sent for count times curlen. */
  function RunOps(curlen: nat, prevlen: int, count: nat, minCount: nat): seq<Op>
    requires count >= 1
  {
    if count < minCount then Ones(count, curlen)
    else if curlen != 0 then
      if curlen != prevlen then [One(curlen), Repeat(count - 1)] else [Repeat(count)]
    else if count <= 10 then [ZerosShort(count)]
    else [ZerosLong(count)]
  }

  function StartScan(lens: seq<nat>): Scan {
    if lens != [] && lens[0] == 0 then Scan([], -1, 0, 138, 3) else Scan([], -1, 0, 7, 4)
  }

  /** One turn of the loops of scan_tree and send_tree. */
  function ScanNext(s: Scan, curlen: nat, nextlen: nat): Scan {
    var count := s.count + 1;
    if count < s.maxCount && curlen == nextlen then s.(count := count)
    else
      var ops := s.ops + RunOps(curlen, s.prevlen, count, s.minCount);
      if nextlen == 0 then Scan(ops, curlen, 0, 138, 3)
      else if curlen == nextlen then Scan(ops, curlen, 0, 6, 3)
      else Scan(ops, curlen, 0, 7, 4)
  }

  /** The scan after n lengths. */
  function ScanTo(lens: seq<nat>, n: nat): Scan
    requires n <= |lens|
  {
    if n == 0 then StartScan(lens) else ScanNext(ScanTo(lens, n - 1), lens[n - 1], NextLen(lens, n - 1))
  }

  /** The operations that a whole tree is sent as. */
  function TreeOps(lens: seq<nat>): seq<Op> {
    ScanTo(lens, |lens|).ops
  }

  /** The invariant of the scan: what was sent unrolls to all but the last count lengths,
      which are equal to each other and to the next one, and the limits are those for it. */
  ghost predicate ScanOk(lens: seq<nat>, n: nat, s: Scan)
    requires n <= |lens|
  {
    && s.count <= n && AllFit([], s.ops) && UnrollAll([], s.ops) == lens[..n - s.count]
    && (s.count > 0 ==> n < |lens|)
    && (forall i :: n - s.count <= i < n ==> lens[i] == lens[n])
    && s.prevlen == (if n == s.count then -1 else lens[n - s.count - 1])
    && s.count < s.maxCount
    && (n < |lens| ==>
          if lens[n] == 0 then s.maxCount == 138 && s.minCount == 3
          else if lens[n] == s.prevlen then s.maxCount == 6 && s.minCount == 3
          else s.maxCount == 7 && s.minCount == 4)
  }

  lemma {:induction false} AllFitOne(lens: seq<nat>, ops: seq<Op>, op: Op)
    requires AllFit(lens, ops) && OpFits(UnrollAll(lens, ops), op)
    ensures AllFit(lens, ops + [op]) && UnrollAll(lens, ops + [op]) == Unroll(UnrollAll(lens, ops), op)
  {
    assert (ops + [op])[..|ops|] == ops;
  }

  lemma {:induction false} FillSplit(k: nat, v: nat)
    requires k > 0
    ensures R.Fill(k, v) == R.Fill(k - 1, v) + [v] == [v] + R.Fill(k - 1, v)
  {
  }

  lemma {:induction false} OnesUnroll(lens: seq<nat>, ops: seq<Op>, k: nat, v: nat)
    requires AllFit(lens, ops) && v <= 15
    ensures AllFit(lens, ops + Ones(k, v)) && UnrollAll(lens, ops + Ones(k, v)) == UnrollAll(lens, ops) + R.Fill(k, v)
  {
    hide OpFits;
    if k == 0 {
      assert ops + Ones(0, v) == ops;
      assert UnrollAll(lens, ops) + R.Fill(0, v) == UnrollAll(lens, ops);
    } else {
      OnesUnroll(lens, ops, k - 1, v);
      OneFits(UnrollAll(lens, ops + Ones(k - 1, v)), v);
      AllFitOne(lens, ops + Ones(k - 1, v), One(v));
      assert ops + Ones(k, v) == ops + Ones(k - 1, v) + [One(v)];
      FillSplit(k, v);
    }
  }

  lemma {:induction false} OneFits(lens: seq<nat>, v: nat)
    requires v <= 15
    ensures OpFits(lens, One(v))
  {
  }

  /** A run is sent as operations that unroll to it. */
  lemma {:induction false} RunUnrolls(ops: seq<Op>, curlen: nat, prevlen: int, count: nat, minCount: nat)
    requires AllFit([], ops) && curlen <= 15 && count >= 1
    requires var done := UnrollAll([], ops); prevlen == if done == [] then -1 else done[|done| - 1]
    requires if curlen == 0 then minCount == 3 && count <= 138
             else if curlen == prevlen then minCount == 3 && count <= 6
             else minCount == 4 && count <= 7
    ensures var more := ops + RunOps(curlen, prevlen, count, minCount);
            AllFit([], more) && UnrollAll([], more) == UnrollAll([], ops) + R.Fill(count, curlen)
  {
    hide AllFit, UnrollAll, R.Fill;
    if count < minCount {
      OnesUnroll([], ops, count, curlen);
    } else if curlen != 0 && curlen != prevlen {
      OneFits(UnrollAll([], ops), curlen);
      AllFitOne([], ops, One(curlen));
      AllFitOne([], ops + [One(curlen)], Repeat(count - 1));
      assert ops + RunOps(curlen, prevlen, count, minCount) == ops + [One(curlen)] + [Repeat(count - 1)];
      FillSplit(count, curlen);
      assert UnrollAll([], ops) + [curlen] + R.Fill(count - 1, curlen) == UnrollAll([], ops) + R.Fill(count, curlen);
    } else {
      var op := RunOps(curlen, prevlen, count, minCount)[0];
      AllFitOne([], ops, op);
    }
  }

  lemma {:induction false} ScanKeeps(lens: seq<nat>, n: nat, s: Scan)
    requires n < |lens| && LensOk(lens) && ScanOk(lens, n, s)
    ensures ScanOk(lens, n + 1, ScanNext(s, lens[n], NextLen(lens, n)))
  {
    hide AllFit, UnrollAll, RunOps;
    var curlen, nextlen, count := lens[n], NextLen(lens, n), s.count + 1;
    if count < s.maxCount && curlen == nextlen {
      assert lens[..n + 1 - count] == lens[..n - s.count];
    } else {
      assert UnrollAll([], s.ops) == lens[..n - s.count];
      RunUnrolls(s.ops, curlen, s.prevlen, count, s.minCount);
      assert lens[..n + 1] == lens[..n - s.count] + R.Fill(count, curlen);
    }
  }

  lemma {:induction false} ScanHolds(lens: seq<nat>, n: nat)
    requires n <= |lens| && LensOk(lens)
    ensures ScanOk(lens, n, ScanTo(lens, n))
    decreases n
  {
    if n > 0 {
      ScanHolds(lens, n - 1);
      ScanKeeps(lens, n - 1, ScanTo(lens, n - 1));
    }
  }

  /** Unrolling what is sent for a tree gives its lengths back; in particular a repeat is
      never sent first. */
  lemma {:induction false} TreeRoundTrip(lens: seq<nat>)
    requires LensOk(lens)
    ensures AllFit([], TreeOps(lens)) && UnrollAll([], TreeOps(lens)) == lens
    ensures TreeOps(lens) != [] ==> !TreeOps(lens)[0].Repeat?
  {
    ScanHolds(lens, |lens|);
    if TreeOps(lens) != [] { FirstFits(TreeOps(lens)); }
  }

  lemma {:induction false} FirstFits(ops: seq<Op>)
    requires AllFit([], ops) && ops != []
    ensures OpFits([], ops[0])
    decreases |ops|
  {
    if |ops| > 1 { FirstFits(ops[..|ops| - 1]); }
  }

  /** Operations unroll in the same way behind other lengths. */
  lemma {:induction false} OpBehind(pre: seq<nat>, a: seq<nat>, op: Op)
    requires OpFits(a, op)
    ensures OpFits(pre + a, op) && Unroll(pre + a, op) == pre + Unroll(a, op)
  {
    hide R.Fill;
    match op
    case One(len) => Rebracket(pre, a, [len]);
    case Repeat(k) =>
      assert (pre + a)[|pre + a| - 1] == a[|a| - 1];
      Rebracket(pre, a, R.Fill(k, a[|a| - 1]));
    case ZerosShort(k) => Rebracket(pre, a, R.Fill(k, 0));
    case ZerosLong(k) => Rebracket(pre, a, R.Fill(k, 0));
  }

  lemma {:induction false} UnrollBehind(pre: seq<nat>, ops: seq<Op>)
    requires AllFit([], ops)
    ensures AllFit(pre, ops) && UnrollAll(pre, ops) == pre + UnrollAll([], ops)
    decreases |ops|
  {
    hide OpOk, R.Fill;
    if ops == [] {
      assert pre + UnrollAll([], ops) == pre;
    } else {
      var n := |ops| - 1;
      UnrollBehind(pre, ops[..n]);
      OpBehind(pre, UnrollAll([], ops[..n]), ops[n]);
      hide Unroll, OpFits;
    }
  }

  // ---- the header of a dynamic block ----

  /** The lengths of the code length code, in their order, three bits each. */
  function LengthFields(bl: seq<nat>, n: nat): seq<bool>
    requires |bl| == 19 && n <= 19
  {
    if n == 0 then [] else LengthFields(bl, n - 1) + ToBits(bl[R.Order(n - 1)], 3)
  }

  /** Codes that a dynamic block can announce. */
  ghost predicate Announced(ll: seq<nat>, dl: seq<nat>, bl: seq<nat>, blcodes: nat) {
    && 257 <= |ll| <= 286 && 1 <= |dl| <= 30 && LensOk(ll) && LensOk(dl) && ll[256] != 0
    && |bl| == 19 && 4 <= blcodes <= 19 && R.GoodLengthCode(bl)
    && (forall i :: 0 <= i < 19 ==> bl[i] <= 7)
    && (forall i :: blcodes <= i < 19 ==> bl[R.Order(i)] == 0)
    && Sendable(bl, TreeOps(ll)) && Sendable(bl, TreeOps(dl))
  }

  function TreesBits(ll: seq<nat>, dl: seq<nat>, bl: seq<nat>, blcodes: nat): seq<bool>
    requires Announced(ll, dl, bl, blcodes)
  {
    ToBits(|ll| - 257, 5) + ToBits(|dl| - 1, 5) + ToBits(blcodes - 4, 4) + LengthFields(bl, blcodes)
    + OpsBits(bl, TreeOps(ll)) + OpsBits(bl, TreeOps(dl))
  }

  /** The first n lengths of the code length code, in transmission order. */
  function Ordered(bl: seq<nat>, n: nat): (cl: seq<nat>)
    requires |bl| == 19 && n <= 19
    ensures |cl| == n
  {
    seq(n, i requires 0 <= i < n => bl[R.Order(i)])
  }

  lemma {:induction false} OrderedBack(bl: seq<nat>, n: nat)
    requires |bl| == 19 && n <= 19 && forall i :: n <= i < 19 ==> bl[R.Order(i)] == 0
    ensures R.Unscramble(Ordered(bl, n)) == bl
  {
    hide R.Order, R.Unscramble;
    var u := R.Unscramble(Ordered(bl, n));
    forall s: nat | s < 19 ensures u[s] == bl[s] {
      R.UnscrambleAt(Ordered(bl, n), R.OrderOf(s));
    }
  }

  lemma {:induction false} CountFields(x: nat, y: nat, z: nat, b: seq<bool>, rest: seq<bool>)
    requires x < 32 && y < 32 && z < 16 && b == ToBits(x, 5) + ToBits(y, 5) + ToBits(z, 4) + rest
    ensures |b| >= 14 && R.Peek(b, 5) == x && R.Peek(b[5..], 5) == y && R.Peek(b[10..], 4) == z && b[14..] == rest
  {
    assert Pow2(5) == 32 && Pow2(4) == 16;
    hide R.Peek, ToBits, Pow2;
    var u, v, w := ToBits(x, 5), ToBits(y, 5), ToBits(z, 4);
    assert b == u + (v + (w + rest));
    PeekField(x, 5, v + (w + rest));
    PeekField(y, 5, w + rest);
    PeekField(z, 4, rest);
    assert b[5..] == v + (w + rest) && b[10..] == w + rest && b[14..] == rest;
  }

  lemma {:induction false} ReadCounts(c: R.Cfg, nlen: nat, ndist: nat, ncode: nat, rest: seq<bool>)
    requires R.Valid(c) && c.mode.Table? && 257 <= nlen <= 286 && 1 <= ndist <= 30 && 4 <= ncode <= 19
    requires c.inp == ToBits(nlen - 257, 5) + ToBits(ndist - 1, 5) + ToBits(ncode - 4, 4) + rest
    ensures var d := c.(mode := R.LenLens(nlen, ndist, ncode, []), inp := rest); R.Valid(d) && R.Reaches(c, d)
  {
    hide R.Step, R.Reaches, R.Valid, R.Peek, ToBits, Pow2;
    CountFields(nlen - 257, ndist - 1, ncode - 4, c.inp, rest);
    R.TableCase(c);
    var d := R.Went(c);
  }

  lemma {:induction false} ReadFields(c: R.Cfg, bl: seq<nat>, ncode: nat, n: nat, rest: seq<bool>)
    requires R.Valid(c) && c.mode.LenLens? && c.mode.ncode == ncode && c.mode.cl == [] && n <= ncode <= 19
    requires |bl| == 19 && (forall i :: 0 <= i < 19 ==> bl[i] <= 7) && c.inp == LengthFields(bl, n) + rest
    ensures var d := c.(mode := c.mode.(cl := Ordered(bl, n)), inp := rest); R.Valid(d) && R.Reaches(c, d)
    decreases n
  {
    hide R.Step, R.Reaches, R.Valid, R.Peek, ToBits, R.Order, R.CodeLensStart, R.Unscramble;
    if n == 0 {
      assert c.inp == rest && Ordered(bl, 0) == [];
      assert c.(mode := c.mode.(cl := []), inp := rest) == c;
      R.ReachesRefl(c);
    } else {
      var v := bl[R.Order(n - 1)];
      assert Pow2(3) == 8;
      var f := ToBits(v, 3);
      assert c.inp == LengthFields(bl, n - 1) + (f + rest);
      ReadFields(c, bl, ncode, n - 1, f + rest);
      var d := c.(mode := c.mode.(cl := Ordered(bl, n - 1)), inp := f + rest);
      R.StepCases(d);
      PeekField(v, 3, rest);
      assert Ordered(bl, n) == Ordered(bl, n - 1) + [v];
      var e := R.Went(d);
      R.ReachesTrans(c, d, e);
    }
  }

  /** The machine reads the codes of a dynamic block back. */
  lemma {:induction false} ReadTrees(c: R.Cfg, ll: seq<nat>, dl: seq<nat>, bl: seq<nat>, blcodes: nat, rest: seq<bool>)
    requires R.Valid(c) && c.mode.Table? && Announced(ll, dl, bl, blcodes)
    requires R.Usable(InfTrees.LENS, ll, 9) && R.Usable(InfTrees.DISTS, dl, 6)
    requires c.inp == TreesBits(ll, dl, bl, blcodes) + rest
    ensures var d := c.(mode := R.Len, ll := ll, dl := dl, inp := rest); R.Valid(d) && R.Reaches(c, d)
  {
    hide R.Step, R.Reaches, R.Valid, ToBits, OpsBits, LengthFields, AllFit, UnrollAll, TreeOps, R.Order, Sendable,
         LensOk, R.GoodLengthCode, R.Usable;
    var f, a, b := LengthFields(bl, blcodes), OpsBits(bl, TreeOps(ll)), OpsBits(bl, TreeOps(dl));
    assert c.inp == ToBits(|ll| - 257, 5) + ToBits(|dl| - 1, 5) + ToBits(blcodes - 4, 4) + (f + (a + (b + rest)));
    ReadCounts(c, |ll|, |dl|, blcodes, f + (a + (b + rest)));
    var c1 := c.(mode := R.LenLens(|ll|, |dl|, blcodes, []), inp := f + (a + (b + rest)));
    ReadFields(c1, bl, blcodes, blcodes, a + (b + rest));
    var c2 := c1.(mode := c1.mode.(cl := Ordered(bl, blcodes)), inp := a + (b + rest));
    R.ReachesTrans(c, c1, c2);
    ReadLengthCode(c2, ll, dl, bl, blcodes);
    var c3 := c2.(mode := R.CodeLens(|ll|, |dl|, bl, []));
    R.ReachesTrans(c, c2, c3);
    ReadLengths(c3, ll, dl, bl, rest);
    R.ReachesTrans(c, c3, c.(mode := R.Len, ll := ll, dl := dl, inp := rest));
  }

  lemma {:induction false} ReadLengthCode(c: R.Cfg, ll: seq<nat>, dl: seq<nat>, bl: seq<nat>, blcodes: nat)
    requires R.Valid(c) && Announced(ll, dl, bl, blcodes)
        && c.mode == R.LenLens(|ll|, |dl|, blcodes, Ordered(bl, blcodes))
    ensures var d := c.(mode := R.CodeLens(|ll|, |dl|, bl, [])); R.Valid(d) && R.Reaches(c, d)
  {
    hide R.Step, R.Reaches, R.Valid, R.Unscramble, R.Order, R.GoodLengthCode, LensOk, Sendable;
    OrderedBack(bl, blcodes);
    R.StepCases(c);
    var d := R.Went(c);
  }

  lemma {:induction false} ReadLengths(c: R.Cfg, ll: seq<nat>, dl: seq<nat>, bl: seq<nat>, rest: seq<bool>)
    requires R.Valid(c) && c.mode == R.CodeLens(|ll|, |dl|, bl, []) && LensOk(ll) && LensOk(dl)
    requires Sendable(bl, TreeOps(ll)) && Sendable(bl, TreeOps(dl)) && |ll| >= 257 && ll[256] != 0
    requires R.Usable(InfTrees.LENS, ll, 9) && R.Usable(InfTrees.DISTS, dl, 6)
    requires c.inp == OpsBits(bl, TreeOps(ll)) + (OpsBits(bl, TreeOps(dl)) + rest)
    ensures var d := c.(mode := R.Len, ll := ll, dl := dl, inp := rest); R.Valid(d) && R.Reaches(c, d)
  {
    hide R.Step, R.Reaches, R.Valid, OpsBits, AllFit, UnrollAll, TreeOps, Sendable, LensOk, R.Usable;
    TreeRoundTrip(ll);
    TreeRoundTrip(dl);
    UnrollBehind(ll, TreeOps(dl));
    var b := OpsBits(bl, TreeOps(dl));
    var total := |ll| + |dl|;
    ReadOps(c, bl, [], total, TreeOps(ll), b + rest);
    var c1 := c.(mode := c.mode.(lens := ll), inp := b + rest);
    ReadOps(c1, bl, ll, total, TreeOps(dl), rest);
    var c2 := c1.(mode := c.mode.(lens := ll + dl), inp := rest);
    R.ReachesTrans(c, c1, c2);
    R.CodeLensCase(c2);
    assert (ll + dl)[..|ll|] == ll && (ll + dl)[|ll|..] == dl;
    var d := R.Went(c2);
    R.ReachesTrans(c, c2, d);
  }
}
