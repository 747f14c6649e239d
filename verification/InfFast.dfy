/** inflate_fast (inffast.c): decode without asking for input or room at each step, while
    six bytes of input and 258 bytes of room are left. Every turn of its loop is a run of
    the machine of module Rfc1951, and the bytes taken too many are given back. */
module InfFast {
  import opened Bits
  import opened Canonical
  import opened InfTrees
  import opened Window
  import opened BitReader
  import opened Lookup
  import opened InfState
  import R = Rfc1951

  // ---- looking symbols up without counting bits ----

  /** The entry is the link of a second-level table, by the tests of the fast loop. */
  predicate FastLink(typ: CodeType, e: Code) {
    !(typ == LENS && e.op == 0) && e.op / 16 % 2 == 0 && e.op / 64 % 2 == 0
  }

  /** Final entries, and the marker of a code that does not exist, are no links. */
  lemma {:induction false} FinalNoLink(typ: CodeType, e: Code, s: nat)
    requires typ != CODES && EntryOf(typ, e, s, if typ == LENS then 286 else 30)
    ensures !FastLink(typ, e) && !IsLink(typ, e)
  {
    hide Entry, EntryOf, R.LengthBase, R.LengthExtra, R.DistBase, R.DistExtra;
    if typ == LENS { LenEntry(e, s); } else { DistEntry(e, s); }
  }

  lemma {:induction false} LinkIsFast(typ: CodeType, e: Code)
    requires IsLink(typ, e)
    ensures typ != CODES && FastLink(typ, e)
  {
  }

  /** With fifteen bits held the probes end, at a final entry. */
  lemma {:induction false} FastFound(T: seq<Code>, at: nat, root: nat, typ: CodeType, code: seq<nat>,
      input: seq<byte>, r: Regs)
    requires TableOk(T, at, root, typ, code) && RegsOk(r, input) && r.bits >= 15 && typ != CODES
    ensures at + Pow2(root) <= |T|
    ensures
        var p := Probe(T, at, root, typ, HeldBits(r));
        p.Found? && p.n <= r.bits && !FastLink(typ, p.e)
        && !IsLink(typ, p.e)
  {
    hide TableOk, DecodeSym, Entry, Complete, NotOver, Sparse, Probe, FastLink, IsLink;
    TableCode(T, at, root, typ, code);
    TableRange(T, at, root, typ, code);
    HoldValue(r, input);
    var b := HeldBits(r);
    ProbeDecodes(T, at, root, typ, code, b);
    match DecodeSym(code, b)
    case NeedMore => NeedMoreShort(code, b);
    case Sym(s, n) =>
      SymbolInTable(T, at, root, typ, code, s);
      FinalNoLink(typ, Entry(typ, s, if n <= root then n else n - root), s);
    case NoCode => FinalNoLink(typ, INVALID, if typ == LENS then 286 else 30);
  }

  lemma {:induction false} SymbolInTable(T: seq<Code>, at: nat, root: nat, typ: CodeType, code: seq<nat>, s: nat)
    requires TableOk(T, at, root, typ, code) && s < |code|
    ensures SymbolsFit(typ, s + 1)
  {
  }

  /** What the probes read when fifteen bits are held. */
  lemma {:induction false} FastProbe(T: seq<Code>, at: nat, root: nat, typ: CodeType, code: seq<nat>,
      input: seq<byte>, r: Regs)
    requires TableOk(T, at, root, typ, code) && RegsOk(r, input) && r.bits >= 15 && typ != CODES
    ensures Low(r.hold, root) < Pow2(root) && at + Pow2(root) <= |T|
    ensures var e := T[at + Low(r.hold, root)];
            e.bits <= r.bits && (FastLink(typ, e) <==> IsLink(typ, e)) &&
            if IsLink(typ, e) then
              var i := at + e.val + Low(Shr(r.hold, e.bits), e.op);
              i < |T| && e.bits + T[i].bits <= r.bits && !FastLink(typ, T[i]) &&
              Probe(T, at, root, typ, HeldBits(r)) == Found(T[i], e.bits + T[i].bits)
            else Probe(T, at, root, typ, HeldBits(r)) == Found(e, e.bits)
  {
    hide TableOk, FastLink, IsLink, Low, Shr;
    HoldValue(r, input);
    FastFound(T, at, root, typ, code, input, r);
    var b := HeldBits(r);
    ShlShrLow(FromBits(b), root);
    var e := T[at + Low(r.hold, root)];
    LowShr(r.hold, e.bits, e.op);
    if IsLink(typ, e) { LinkIsFast(typ, e); }
  }

  lemma {:induction false} LowShr(v: nat, m: nat, n: nat)
    ensures Shr(Low(v, m + n), m) == Low(Shr(v, m), n)
  {
    if m > 0 { LowShr(v / 2, m - 1, n); }
  }

  /** a is the end of b. */
  ghost predicate Tail(a: seq<bool>, b: seq<bool>) {
    |a| <= |b| && a == b[|b| - |a|..]
  }

  lemma {:induction false} TailTrans(a: seq<bool>, b: seq<bool>, c: seq<bool>)
    requires Tail(a, b) && Tail(b, c)
    ensures Tail(a, c)
  {
  }

  /** A byte of input, which is known to be there. */
  method TakeByte(input: seq<byte>, r0: Regs) returns (r: Regs)
    requires RegsOk(r0, input) && r0.bits <= 24 && r0.ipos < |input|
    ensures RegsOk(r, input) && Unread(r, input) == Unread(r0, input)
    ensures r.ipos == r0.ipos + 1 && r.bits == r0.bits + 8 && HeldBits(r)[..r0.bits] == HeldBits(r0)
  {
    PullInput(r0.hold, r0.bits, input, r0.ipos);
    r := Regs(r0.hold + Shl(input[r0.ipos], r0.bits), r0.bits + 8, r0.ipos + 1);
  }

  /** Make sure that fifteen bits are held. */
  method FillTo15(input: seq<byte>, r0: Regs) returns (r: Regs)
    requires RegsOk(r0, input) && (r0.bits < 15 ==> r0.ipos + 2 <= |input|)
    ensures RegsOk(r, input) && Unread(r, input) == Unread(r0, input) && r.bits >= 15
    ensures r.ipos == (if r0.bits < 15 then r0.ipos + 2 else r0.ipos) && r.bits == r0.bits + 8 * (r.ipos - r0.ipos)
    ensures HeldBits(r)[..r0.bits] == HeldBits(r0)
  {
    hide Unread, Pow2;
    r := r0;
    if r.bits < 15 {
      r := TakeByte(input, r);
      ghost var h := HeldBits(r);
      r := TakeByte(input, r);
      assert HeldBits(r)[..r0.bits] == h[..r0.bits];
    }
  }

  /** Look the next code up and drop it. */
  method FastLook(codes: array<Code>, at: nat, root: nat, typ: CodeType, ghost code: seq<nat>, input: seq<byte>,
      r0: Regs)
    returns (r: Regs, here: Code, ghost n: nat)
    requires TableOk(codes[..], at, root, typ, code) && RegsOk(r0, input) && r0.bits >= 15 && typ != CODES
    ensures RegsOk(r, input) && n <= r0.bits && r.bits == r0.bits - n && r.ipos == r0.ipos
    ensures Unread(r, input) == Unread(r0, input)[n..]
    ensures match DecodeSym(code, Unread(r0, input))
            case Sym(s, m) => SymbolsFit(typ, s + 1) && n == m && here == Entry(typ, s, here.bits)
            case NoCode => n == 1 && here == INVALID
            case NeedMore => false
    ensures DecodeSym(code, HeldBits(r0)) == DecodeSym(code, Unread(r0, input))
  {
    hide TableOk, FastLink, DecodeSym, Probe, Low, Shr, Entry, Pow2, Unread;
    FastProbe(codes[..], at, root, typ, code, input, r0);
    here := codes[at + Low(r0.hold, root)];
    n := here.bits;
    Dropped(r0, input, n);
    r := DropBits(r0, here.bits);
    if FastLink(typ, here) {
      here := codes[at + here.val + Low(r.hold, here.op)];
      Dropped(r, input, here.bits);
      r := DropBits(r, here.bits);
      assert Unread(r0, input)[n..][here.bits..] == Unread(r0, input)[n + here.bits..];
      n := n + here.bits;
    }
    FastDecided(codes[..], at, root, typ, code, input, r0, here, n);
  }

  lemma {:induction false} FastDecided(T: seq<Code>, at: nat, root: nat, typ: CodeType, code: seq<nat>,
      input: seq<byte>, r: Regs, here: Code, n: nat)
    requires TableOk(T, at, root, typ, code) && RegsOk(r, input) && at + Pow2(root) <= |T|
    requires Probe(T, at, root, typ, HeldBits(r)) == Found(here, n)
    ensures match DecodeSym(code, Unread(r, input))
            case Sym(s, m) => SymbolsFit(typ, s + 1) && n == m && here == Entry(typ, s, here.bits)
            case NoCode => n == 1 && here == INVALID
            case NeedMore => false
    ensures DecodeSym(code, HeldBits(r)) == DecodeSym(code, Unread(r, input))
  {
    hide DecodeSym, Probe, Entry, Complete, NotOver, Sparse, TableOk;
    TableCode(T, at, root, typ, code);
    HoldValue(r, input);
    var b := HeldBits(r);
    var rest := Unread(r, input)[r.bits..];
    assert Unread(r, input) == b + rest;
    ProbeDecodes(T, at, root, typ, code, b);
    DecodeExtend(code, b, rest);
    match DecodeSym(code, b)
    case Sym(s, m) => SymbolInTable(T, at, root, typ, code, s);
    case _ =>
  }

  /** Only the next symbol may need the bits held on entry, up to seven of them apart. */
  lemma {:induction false} FreshUsed(code: seq<nat>, r0: Regs, r: Regs, n: nat)
    requires Fresh(code, r0) && r0.bits <= r.bits && HeldBits(r)[..r0.bits] == HeldBits(r0) && NotOver(code)
    requires (match DecodeSym(code, HeldBits(r)) case Sym(s, m) => n == m case NoCode => n == 1 case NeedMore => false)
    requires CodeOk(code)
    ensures r0.bits - n < 8
  {
    hide DecodeSym, CodeBits, Complete, NotOver, Sparse;
    var b := HeldBits(r);
    assert b == b[..r0.bits] + b[r0.bits..];
    if DecodeSym(code, HeldBits(r0)) == NeedMore {
      LateSymbol(code, b, r0.bits);
    } else {
      DecodeExtend(code, b[..r0.bits], b[r0.bits..]);
    }
  }

  // ---- one turn ----

  /** The literal or length symbol of a turn. */
  method FastLen(s: InflateState, ghost c: R.Cfg, input: seq<byte>, r0: Regs)
    returns (r: Regs, here: Code, ghost sym: nat, ghost d: R.Cfg)
    requires s.Shape() && s.Is(c) && s.mode == LEN && R.Valid(c) && RegsOk(r0, input)
    requires c.inp == Unread(r0, input) && (r0.bits < 15 ==> r0.ipos + 2 <= |input|)
    ensures RegsOk(r, input) && Tail(Unread(r, input), Unread(r0, input)) && Drained(r0, r, 1, 15)
    ensures r.ipos == if r0.bits < 15 then r0.ipos + 2 else r0.ipos
    ensures EntryOf(LENS, here, sym, 286)
    ensures R.Reaches(c, d) && R.Valid(d) && d == R.LenSymbol(c.(inp := Unread(r, input)), sym)
    ensures Fresh(c.ll, r0) ==> Owed(r0, r) < 8
  {
    hide R.Valid, R.Step, TableOk, InflateState.Is, InflateState.IsMode, Unread, DecodeSym, R.LenSymbol, Entry,
         EntryOf, Fresh, Pow2, R.Reaches, HeldBits;
    s.LenTables(c);
    R.StepCases(c);
    r := FillTo15(input, r0);
    var q := r;
    ghost var n;
    r, here, n := FastLook(s.codes, s.lencode, s.lenbits, LENS, c.ll, input, q);
    sym := SymbolOf(LENS, c.ll, c.inp, here, 286);
    DecodedLength(c.ll, c.inp);
    d := R.Went(c);
    LenSymbolFail(c, Unread(r, input));
    if Fresh(c.ll, r0) {
      TableCode(s.codes[..], s.lencode, s.lenbits, LENS, c.ll);
      FreshUsed(c.ll, r0, q, n);
    }
  }

  /** From r0 to r, between lo and hi bits were used. */
  ghost predicate Drained(r0: Regs, r: Regs, lo: nat, hi: nat) {
    r.ipos >= r0.ipos && lo <= (r0.bits - 8 * r0.ipos) - (r.bits - 8 * r.ipos) <= hi
  }

  /** The bits held that came in before r0 did. */
  ghost function Owed(r0: Regs, r: Regs): int {
    r.bits - 8 * (r.ipos - r0.ipos)
  }

  lemma {:induction false} DecodedLength(code: seq<nat>, b: seq<bool>)
    ensures match DecodeSym(code, b) case Sym(s, n) => 1 <= n <= 15 case _ => true
  {
    hide CodeBits;
  }

  lemma {:induction false} LenSymbolFail(c: R.Cfg, b: seq<bool>)
    ensures R.LenSymbol(c.(inp := b), 286) == R.Fail(c, R.InvalidLiteralCode)
  {
  }

  lemma {:induction false} DistSymbolFail(c: R.Cfg, b: seq<bool>)
    requires c.mode.Dist?
    ensures R.DistSymbol(c.(inp := b), 30) == R.Fail(c, R.InvalidDistanceCode)
  {
  }

  /** The distance symbol of a turn. */
  method FastDist(s: InflateState, ghost c: R.Cfg, input: seq<byte>, r0: Regs)
    returns (r: Regs, here: Code, ghost sym: nat, ghost d: R.Cfg)
    requires TableOk(s.codes[..], s.distcode, s.distbits, DISTS, c.dl) && R.Valid(c) && RegsOk(r0, input)
        && c.mode.Dist?
    requires c.inp == Unread(r0, input) && (r0.bits < 15 ==> r0.ipos + 2 <= |input|)
    ensures RegsOk(r, input) && Tail(Unread(r, input), Unread(r0, input)) && Drained(r0, r, 1, 15)
    ensures r.ipos == if r0.bits < 15 then r0.ipos + 2 else r0.ipos
    ensures EntryOf(DISTS, here, sym, 30)
    ensures R.Reaches(c, d) && R.Valid(d) && d == R.DistSymbol(c.(inp := Unread(r, input)), sym)
  {
    hide R.Valid, R.Step, TableOk, Unread, DecodeSym, R.DistSymbol, Entry, EntryOf, Pow2, R.Reaches, HeldBits;
    R.StepCases(c);
    r := FillTo15(input, r0);
    var q := r;
    ghost var n;
    r, here, n := FastLook(s.codes, s.distcode, s.distbits, DISTS, c.dl, input, q);
    sym := SymbolOf(DISTS, c.dl, c.inp, here, 30);
    DecodedLength(c.dl, c.inp);
    d := R.Went(c);
    DistSymbolFail(c, Unread(r, input));
  }

  /** The extra bits of a length, or none. */
  method FastLenExt(ghost c: R.Cfg, input: seq<byte>, r0: Regs, base: nat, op: nat)
    returns (r: Regs, len: nat, ghost d: R.Cfg)
    requires R.Valid(c) && c.mode == R.LenExt(base, op) && RegsOk(r0, input) && c.inp == Unread(r0, input)
    requires r0.bits < op ==> r0.ipos + 1 <= |input|
    ensures RegsOk(r, input) && Tail(Unread(r, input), Unread(r0, input)) && Drained(r0, r, 0, 5)
    ensures r.ipos == if r0.bits < op then r0.ipos + 1 else r0.ipos
    ensures R.Reaches(c, d) && R.Valid(d) && d == c.(mode := R.Dist(len), inp := Unread(r, input)) && base <= len <= 258
  {
    hide R.Valid, R.Step, Unread, R.Reaches, HeldBits, R.Peek, Pow2, R.GoodCode;
    R.StepCases(c);
    LenExtBounds(c);
    r, len := r0, base;
    if op != 0 {
      if r.bits < op { r := TakeByte(input, r); }
      var v;
      v, r := TakeBits(input, r, op);
      len := len + v;
    } else {
      PeekNone(c.inp);
    }
    d := R.Went(c);
    DistLen(d);
  }

  lemma {:induction false} LenExtBounds(c: R.Cfg)
    requires R.Valid(c) && c.mode.LenExt?
    ensures c.mode.extra <= 5
  {
  }

  lemma {:induction false} DistLen(c: R.Cfg)
    requires R.Valid(c) && c.mode.Dist?
    ensures c.mode.length <= 258
  {
  }

  lemma {:induction false} DistExtBounds(c: R.Cfg)
    requires R.Valid(c) && c.mode.DistExt?
    ensures c.mode.extra <= 13
  {
  }

  /** The extra bits of a distance. */
  method FastDistExt(ghost c: R.Cfg, input: seq<byte>, r0: Regs, ghost len: nat, base: nat, op: nat)
    returns (r: Regs, dist: nat, ghost d: R.Cfg)
    requires R.Valid(c) && c.mode == R.DistExt(len, base, op) && RegsOk(r0, input) && c.inp == Unread(r0, input)
    requires r0.bits < op ==> r0.ipos + 1 <= |input|
    requires r0.bits + 8 < op ==> r0.ipos + 2 <= |input|
    ensures RegsOk(r, input) && Tail(Unread(r, input), Unread(r0, input)) && Drained(r0, r, 0, 13)
    ensures r.ipos == if r0.bits + 8 < op then r0.ipos + 2 else if r0.bits < op then r0.ipos + 1 else r0.ipos
    ensures R.Reaches(c, d) && R.Valid(d) && d == c.(mode := R.Match(len, dist), inp := Unread(r, input))
  {
    hide R.Valid, R.Step, Unread, R.Reaches, HeldBits, R.Peek, Pow2, R.GoodCode;
    R.StepCases(c);
    DistExtBounds(c);
    r := r0;
    if r.bits < op {
      r := TakeByte(input, r);
      if r.bits < op { r := TakeByte(input, r); }
    }
    dist, r := TakeBits(input, r, op);
    dist := base + dist;
    d := R.Went(c);
  }

  // ---- copying a match ----

  /** out[lo..hi] are bytes of a match: each from d places back, in this call's output or
      in what came before it. */
  ghost predicate Run(out: seq<byte>, lo: nat, hi: nat, d: nat, hist: seq<byte>)
    requires hi <= |out| && d <= |hist| + lo
  {
    forall k {:trigger out[k]} :: lo <= k < hi ==> out[k] == if d <= k then out[k - d] else hist[|hist| + k - d]
  }

  /** Copy three bytes at a time from src[from..], and then the rest. */
  method CopyThrees(output: array<byte>, put: nat, src: array<byte>, from: nat, n: nat)
    requires put + n <= output.Length && from + n <= src.Length && src != output
    modifies output
    ensures forall k :: 0 <= k < output.Length ==>
              output[k] == if put <= k < put + n then src[from + (k - put)] else old(output[k])
  {
    var len, p, f := n, put, from;
    while len > 2
      invariant 0 <= len <= n && p == put + (n - len) && f == from + (n - len)
      invariant forall k :: 0 <= k < output.Length ==>
                  output[k] == if put <= k < p then src[from + (k - put)] else old(output[k])
    {
      output[p] := src[f];
      output[p + 1] := src[f + 1];
      output[p + 2] := src[f + 2];
      p, f, len := p + 3, f + 3, len - 3;
    }
    if len != 0 {
      output[p] := src[f];
      if len > 1 { output[p + 1] := src[f + 1]; }
    }
  }

  /** The same from d places back in the output itself, where the copy may run into itself. */
  method CopyBackThrees(output: array<byte>, put: nat, d: nat, n: nat)
    requires 1 <= d <= put && put + n <= output.Length
    modifies output
    ensures forall k :: 0 <= k < output.Length && !(put <= k < put + n) ==> output[k] == old(output[k])
    ensures forall k :: put <= k < put + n ==> output[k] == output[k - d]
  {
    var len, p := n, put;
    while len > 2
      invariant 0 <= len <= n && p == put + (n - len)
      invariant forall k :: 0 <= k < output.Length && !(put <= k < p) ==> output[k] == old(output[k])
      invariant forall k :: put <= k < p ==> output[k] == output[k - d]
    {
      output[p] := output[p - d];
      output[p + 1] := output[p + 1 - d];
      output[p + 2] := output[p + 2 - d];
      p, len := p + 3, len - 3;
    }
    if len != 0 {
      output[p] := output[p - d];
      if len > 1 { output[p + 1] := output[p + 1 - d]; }
    }
  }

  /** A stretch of the ring, op places back, copied to where it belongs. */
  lemma {:induction false} RingIsRun(out: seq<byte>, p: nat, n: nat, d: nat, window: seq<byte>, from: nat, dd: nat,
      hist: seq<byte>)
    requires p + n <= |out| && from + n <= |window| && d == p + dd && n <= dd <= |hist|
    requires window[from..from + n] == hist[|hist| - dd..|hist| - dd + n]
    requires forall k :: p <= k < p + n ==> out[k] == window[from + (k - p)]
    ensures Run(out, p, p + n, d, hist)
  {
    var held := window[from..from + n];
    forall k | p <= k < p + n ensures k < d && out[k] == hist[|hist| + k - d] {
      assert out[k] == held[k - p];
    }
  }

  /** The rest of the match, once the window is used up to its newest byte. */
  method RestFromOutput(output: array<byte>, put: nat, p: nat, n: nat, d: nat, ghost hist: seq<byte>)
    requires put <= p && p + n <= output.Length && 1 <= d <= p && d <= |hist| + put
    requires Run(output[..], put, p, d, hist)
    modifies output
    ensures output[..p] == old(output[..p]) && Run(output[..], put, p + n, d, hist)
  {
    CopyBackThrees(output, p, d, n);
  }

  /** A stretch of op bytes from the window at from, and then the rest: from the output when
      the stretch ends at the newest byte. */
  method WindowThenOutput(window: array<byte>, output: array<byte>, put: nat, from: nat, op: nat, len: nat, d: nat,
      ghost hist: seq<byte>)
    requires window != output && put + len <= output.Length && from + op <= window.Length && d == put + op
        && 1 <= op <= |hist|
    requires window[from..from + op] == hist[|hist| - op..]
    modifies output
    ensures output[..put] == old(output[..put]) && Run(output[..], put, put + len, d, hist)
  {
    if op < len {
      MemCopy(output, put, window[..], from, op);
      RingIsRun(output[..], put, op, d, window[..], from, op, hist);
      RestFromOutput(output, put, put + op, len - op, d, hist);
    } else {
      CopyThrees(output, put, window, from, len);
      assert window[from..from + len] == window[from..from + op][..len] == hist[|hist| - op..][..len];
      RingIsRun(output[..], put, len, d, window[..], from, op, hist);
    }
  }

  /** The end of the ring, its start, and then the output. */
  method WrapThenOutput(window: array<byte>, output: array<byte>, put: nat, from: nat, op: nat, wnext: nat, len: nat,
      d: nat, ghost hist: seq<byte>)
    requires window != output && put + len <= output.Length && from + op <= window.Length && d == put + op + wnext
    requires 1 <= op && 1 <= wnext <= window.Length && op + wnext <= |hist|
    requires window[from..from + op] == hist[|hist| - op - wnext..|hist| - wnext]
        && window[..wnext] == hist[|hist| - wnext..]
    modifies output
    ensures output[..put] == old(output[..put]) && Run(output[..], put, put + len, d, hist)
  {
    if op < len {
      MemCopy(output, put, window[..], from, op);
      RingIsRun(output[..], put, op, d, window[..], from, op + wnext, hist);
      ghost var was := output[..];
      WindowThenOutput(window, output, put + op, 0, wnext, len - op, d, hist);
      RunJoin(was, output[..], put, put + op, put + len, d, hist);
      assert output[..put] == output[..put + op][..put];
    } else {
      CopyThrees(output, put, window, from, len);
      assert window[from..from + len] == window[from..from + op][..len];
      RingIsRun(output[..], put, len, d, window[..], from, op + wnext, hist);
    }
  }

  lemma {:induction false} RunJoin(was: seq<byte>, out: seq<byte>, lo: nat, mid: nat, hi: nat, d: nat, hist: seq<byte>)
    requires lo <= mid <= hi <= |out| == |was| && 1 <= d <= |hist| + lo && was[..mid] == out[..mid]
    requires Run(was, lo, mid, d, hist) && Run(out, mid, hi, d, hist)
    ensures Run(out, lo, hi, d, hist)
  {
    forall k {:trigger out[k]} | lo <= k < mid ensures out[k] == was[k] && (d <= k ==> out[k - d] == was[k - d]) {
      assert was[..mid][k] == out[..mid][k];
      if d <= k { assert was[..mid][k - d] == out[..mid][k - d]; }
    }
  }

  /** Copy a whole match of len bytes from dist places back. */
  method FastCopy(s: InflateState, output: array<byte>, put: nat, ghost hist: seq<byte>, len: nat, dist: nat)
    requires s.Shape() && s.WindowOk(hist) && output != s.window && len >= 3 && put + len <= output.Length
    requires 1 <= dist && (dist <= put || dist - put <= s.whave)
    modifies output
    ensures output[..put] == old(output[..put]) && dist <= |hist| + put
    ensures hist + output[..put + len] == R.Extend(hist + old(output[..put]), dist, len)
  {
    hide RingOk, RingIndex, R.Extend, InflateState.WindowOk, Run;
    ghost var before := output[..put];
    var op: nat;
    if dist > put {
      op := dist - put;
      s.RingHere(hist, op);
      s.RingRun(hist, op, if op <= s.wnext then op else op - s.wnext);
      if s.wnext == 0 {
        WindowThenOutput(s.window, output, put, s.wsize - op, op, len, dist, hist);
      } else if s.wnext < op {
        s.RingHere(hist, s.wnext);
        s.RingRun(hist, s.wnext, s.wnext);
        WrapThenOutput(s.window, output, put, s.wsize + s.wnext - op, op - s.wnext, s.wnext, len, dist, hist);
      } else {
        WindowThenOutput(s.window, output, put, s.wnext - op, op, len, dist, hist);
      }
    } else {
      CopyBackThrees(output, put, dist, len);
      DirectRun(output[..], put, len, dist, hist);
    }
    RunOut(hist, before, output[..], put, len, dist);
  }

  lemma {:induction false} DirectRun(out: seq<byte>, put: nat, len: nat, d: nat, hist: seq<byte>)
    requires put + len <= |out| && d <= put && forall k :: put <= k < put + len ==> out[k] == out[k - d]
    ensures Run(out, put, put + len, d, hist)
  {
  }

  lemma {:induction false} RunOut(hist: seq<byte>, before: seq<byte>, out: seq<byte>, put: nat, len: nat, d: nat)
    requires put + len <= |out| && 1 <= d <= |hist| + put && before == out[..put] && Run(out, put, put + len, d, hist)
    ensures hist + out[..put + len] == R.Extend(hist + before, d, len)
  {
    var after := out[..put + len];
    forall k {:trigger after[k]} | put <= k < put + len ensures after[k] == if d <= k then after[k - d]
        else hist[|hist| + k - d] {
      assert after[k] == out[k];
    }
    MatchOut(hist, before, after, d, len);
  }

  /** Where a turn ends: at the next symbol, at the end of the block, or in an error. */
  ghost predicate Ends(c: R.Cfg, d: R.Cfg, m: InflateMode, e: R.Error, input: seq<byte>, r: Regs)
    requires RegsOk(r, input)
  {
    && R.Reaches(c, d) && R.Valid(d) && d.last == c.last && d.ll == c.ll && d.dl == c.dl
    && match m
       case LEN => d.mode.Len? && d.inp == Unread(r, input)
       case TYPE => d.mode.Type? && d.inp == Unread(r, input)
       case BAD => d.mode == R.Bad(e) && d.inp == []
       case _ => false
  }

  lemma {:induction false} EndsTrans(c: R.Cfg, d: R.Cfg, d2: R.Cfg, m: InflateMode, e: R.Error, input: seq<byte>,
      r: Regs)
    requires RegsOk(r, input) && R.Reaches(c, d) && Ends(d, d2, m, e, input, r) && d.last == c.last && d.ll == c.ll
        && d.dl == c.dl
    ensures Ends(c, d2, m, e, input, r)
  {
    hide R.Reaches, R.Valid;
    R.ReachesTrans(c, d, d2);
  }

  /** A match whose length and distance are known. */
  method FastMatch(s: InflateState, ghost c: R.Cfg, ghost input: seq<byte>, ghost r: Regs, output: array<byte>,
      put: nat, ghost hist: seq<byte>,
                   len: nat, dist: nat)
    returns (put2: nat, m: InflateMode, e: R.Error, ghost d: R.Cfg)
    requires s.Shape() && s.WindowOk(hist) && output != s.window && 3 <= len <= 258 && put + 258 <= output.Length
    requires R.Valid(c) && c.mode == R.Match(len, dist) && RegsOk(r, input) && c.inp == Unread(r, input)
    requires c.out == hist + output[..put]
    modifies output
    ensures Ends(c, d, m, e, input, r) && put <= put2 <= put + 258
    ensures output[..put] == old(output[..put]) && d.out == hist + output[..put2]
  {
    hide R.Step, R.Reaches, InflateState.WindowOk, R.Extend, Unread, R.Valid;
    e := R.TooFarBack;
    MatchBounds(c);
    if dist > put && dist - put > s.whave {
      FarBack(s, hist, put, dist);
      R.StepCases(c);
      d := R.Went(c);
      return put, BAD, e, d;
    }
    FastCopy(s, output, put, hist, len, dist);
    R.MatchSteps(c, len);
    d := R.Matched(c, len);
    put2, m := put + len, LEN;
  }

  lemma {:induction false} MatchBounds(c: R.Cfg)
    requires R.Valid(c) && c.mode.Match?
    ensures 1 <= c.mode.offset <= 32768
  {
  }

  lemma {:induction false} FarBack(s: InflateState, hist: seq<byte>, put: nat, dist: nat)
    requires s.Shape() && s.WindowOk(hist) && put < dist <= 32768 && dist - put > s.whave
    ensures dist > |hist| + put
  {
  }

  /** The distance of a match, and its copy. */
  method FastDistance(s: InflateState, ghost c: R.Cfg, input: seq<byte>, r0: Regs, output: array<byte>, put: nat,
      ghost hist: seq<byte>, len: nat)
    returns (r: Regs, put2: nat, m: InflateMode, e: R.Error, ghost d: R.Cfg)
    requires s.Shape() && s.WindowOk(hist) && output != s.window && 3 <= len <= 258 && put + 258 <= output.Length
    requires TableOk(s.codes[..], s.distcode, s.distbits, DISTS, c.dl)
    requires R.Valid(c) && c.mode == R.Dist(len) && RegsOk(r0, input) && c.inp == Unread(r0, input)
    requires c.out == hist + output[..put]
    requires r0.bits + 8 * (|input| - r0.ipos) >= 28
    modifies output
    ensures RegsOk(r, input) && Tail(Unread(r, input), Unread(r0, input)) && Drained(r0, r, 1, 28)
    ensures r.ipos > r0.ipos ==> 8 * (r.ipos - r0.ipos) + r0.bits < 36
    ensures Ends(c, d, m, e, input, r) && put <= put2 <= put + 258
    ensures output[..put] == old(output[..put]) && d.out == hist + output[..put2]
  {
    hide R.Step, R.Reaches, InflateState.WindowOk, R.Extend, Unread, R.Valid, EntryOf, R.DistSymbol, Entry, TableOk,
         Pow2, Ends, Tail,
         R.DistBase, R.DistExtra;
    e := R.InvalidDistanceCode;
    var here;
    ghost var sym;
    r, here, sym, d := FastDist(s, c, input, r0);
    DistEntry(here, sym);
    DistSymbolCases(c, Unread(r, input), sym);
    if here.op / 16 % 2 == 1 {
      var dist;
      ghost var d1, q, d2 := d, r, d;
      r, dist, d2 := FastDistExt(d1, input, r, len, here.val, here.op % 16);
      put2, m, e, d := FastMatch(s, d2, input, r, output, put, hist, len, dist);
      R.ReachesTrans(c, d1, d2);
      EndsTrans(c, d2, d, m, e, input, r);
      TailTrans(Unread(r, input), Unread(q, input), Unread(r0, input));
    } else {
      put2, m := put, BAD;
      EndsBad(c, d, e, input, r);
    }
  }

  lemma {:induction false} EndsBad(c: R.Cfg, d: R.Cfg, e: R.Error, input: seq<byte>, r: Regs)
    requires RegsOk(r, input) && R.Reaches(c, d) && R.Valid(d) && d.last == c.last && d.ll == c.ll && d.dl == c.dl
    requires d.mode == R.Bad(e) && d.inp == []
    ensures Ends(c, d, BAD, e, input, r)
  {
  }

  lemma {:induction false} DistSymbolCases(c: R.Cfg, b: seq<bool>, s: nat)
    requires c.mode.Dist?
    ensures var d := R.DistSymbol(c.(inp := b), s);
            d.last == c.last && d.ll == c.ll && d.dl == c.dl && d.out == c.out &&
            if s <= 29 then d.inp == b && d.mode == R.DistExt(c.mode.length, R.DistBase(s), R.DistExtra(s))
            else d.inp == [] && d.mode == R.Bad(R.InvalidDistanceCode)
  {
    hide R.DistBase, R.DistExtra;
  }

  lemma {:induction false} LenSymbolCases(c: R.Cfg, b: seq<bool>, s: nat)
    ensures var d := R.LenSymbol(c.(inp := b), s);
            d.last == c.last && d.ll == c.ll && d.dl == c.dl && d.out == c.out &&
            if s < 256 then d.inp == b && d.mode == R.Lit(s)
            else if s == 256 then d.inp == b && d.mode == R.Type
            else if s <= 285 then d.inp == b && d.mode == R.LenExt(R.LengthBase(s - 257), R.LengthExtra(s - 257))
            else d.inp == [] && d.mode == R.Bad(R.InvalidLiteralCode)
  {
    hide R.LengthBase, R.LengthExtra;
  }

  lemma {:induction false} LengthAtLeast3(i: nat)
    requires i < 29
    ensures R.LengthBase(i) >= 3
  {
  }

  /** The extra bits, distance and copy of a match whose length symbol is known. */
  method FastLength(s: InflateState, ghost c: R.Cfg, input: seq<byte>, r0: Regs, output: array<byte>, put: nat,
      ghost hist: seq<byte>, base: nat, op: nat)
    returns (r: Regs, put2: nat, m: InflateMode, e: R.Error, ghost d: R.Cfg)
    requires s.Shape() && s.WindowOk(hist) && output != s.window && 3 <= base && put + 258 <= output.Length
    requires TableOk(s.codes[..], s.distcode, s.distbits, DISTS, c.dl)
    requires R.Valid(c) && c.mode == R.LenExt(base, op) && RegsOk(r0, input) && c.inp == Unread(r0, input)
    requires c.out == hist + output[..put]
    requires r0.bits + 8 * (|input| - r0.ipos) >= 33
    modifies output
    ensures RegsOk(r, input) && Tail(Unread(r, input), Unread(r0, input)) && Drained(r0, r, 1, 33)
    ensures r.ipos > r0.ipos ==> 8 * (r.ipos - r0.ipos) + r0.bits < 41
    ensures Ends(c, d, m, e, input, r) && put <= put2 <= put + 258
    ensures output[..put] == old(output[..put]) && d.out == hist + output[..put2]
  {
    hide R.Step, R.Reaches, InflateState.WindowOk, Unread, R.Valid, TableOk, Pow2, Ends, Tail;
    LenExtBounds(c);
    var len;
    r, len, d := FastLenExt(c, input, r0, base, op);
    var q := r;
    ghost var d2 := d;
    r, put2, m, e, d := FastDistance(s, d2, input, q, output, put, hist, len);
    EndsTrans(c, d2, d, m, e, input, r);
    TailTrans(Unread(r, input), Unread(q, input), Unread(r0, input));
  }

  /** One turn of the fast loop. At most six bytes are taken and 258 made. */
  method FastTurn(s: InflateState, ghost c: R.Cfg, input: seq<byte>, r0: Regs, output: array<byte>, put: nat,
      ghost hist: seq<byte>)
    returns (r: Regs, put2: nat, m: InflateMode, e: R.Error, ghost d: R.Cfg)
    requires s.Shape() && s.WindowOk(hist) && output != s.window && put + 258 <= output.Length && r0.ipos + 6 <= |input|
    requires s.mode == LEN && s.Is(c) && R.Valid(c) && RegsOk(r0, input) && c.inp == Unread(r0, input)
    requires c.out == hist + output[..put]
    modifies output
    ensures RegsOk(r, input) && Tail(Unread(r, input), Unread(r0, input)) && Drained(r0, r, 1, 48)
        && r.ipos <= r0.ipos + 6
    ensures Fresh(c.ll, r0) ==> Owed(r0, r) < 8
    ensures Ends(c, d, m, e, input, r) && put <= put2 <= put + 258
    ensures output[..put] == old(output[..put]) && d.out == hist + output[..put2]
  {
    hide R.Step, R.Reaches, InflateState.WindowOk, Unread, R.Valid, TableOk, Pow2, Ends, Tail, EntryOf, Entry,
         R.LenSymbol,
         InflateState.Is, Fresh, HeldBits, R.LengthBase, R.LengthExtra;
    var here;
    ghost var sym;
    r, here, sym, d := FastLen(s, c, input, r0);
    LenEntry(here, sym);
    LenSymbolCases(c, Unread(r, input), sym);
    e, put2 := R.InvalidLiteralCode, put;
    if here.op == 0 {
      m := LEN;
      put2, d := FastLit(c, d, input, r, output, put, hist, here.val);
    } else if here.op / 16 % 2 == 1 {
      LengthAtLeast3(sym - 257);
      FastTables(s, c);
      ghost var d1 := d;
      var q := r;
      r, put2, m, e, d := FastLength(s, d1, input, q, output, put, hist, here.val, here.op % 16);
      EndsTrans(c, d1, d, m, e, input, r);
      TailTrans(Unread(r, input), Unread(q, input), Unread(r0, input));
    } else if here.op / 32 % 2 == 1 {
      m := TYPE;
      EndsType(c, d, e, input, r);
    } else {
      m := BAD;
      EndsBad(c, d, e, input, r);
    }
  }

  lemma {:induction false} EndsType(c: R.Cfg, d: R.Cfg, e: R.Error, input: seq<byte>, r: Regs)
    requires RegsOk(r, input) && R.Reaches(c, d) && R.Valid(d) && d.last == c.last && d.ll == c.ll && d.dl == c.dl
    requires d.mode.Type? && d.inp == Unread(r, input)
    ensures Ends(c, d, TYPE, e, input, r)
  {
  }

  lemma {:induction false} FastTables(s: InflateState, c: R.Cfg)
    requires s.Shape() && s.Is(c) && s.mode == LEN
    ensures TableOk(s.codes[..], s.distcode, s.distbits, DISTS, c.dl)
  {
    hide TableOk;
  }

  method FastLit(ghost c: R.Cfg, ghost d1: R.Cfg, ghost input: seq<byte>, ghost r: Regs, output: array<byte>,
      put: nat, ghost hist: seq<byte>, v: nat)
    returns (put2: nat, ghost d: R.Cfg)
    requires R.Reaches(c, d1) && R.Valid(d1) && d1.last == c.last && d1.ll == c.ll && d1.dl == c.dl && v < 256
        && d1.mode == R.Lit(v)
    requires RegsOk(r, input) && d1.inp == Unread(r, input) && put < output.Length && d1.out == hist + output[..put]
    modifies output
    ensures put2 == put + 1 && output[..put] == old(output[..put]) && d.out == hist + output[..put2]
    ensures Ends(c, d, LEN, R.InvalidLiteralCode, input, r)
  {
    hide R.Step, R.Reaches, Unread, R.Valid;
    R.StepCases(d1);
    d := R.Went(d1);
    R.ReachesTrans(c, d1, d);
    ghost var before := output[..put];
    output[put] := v;
    put2 := put + 1;
    assert output[..put] == before;
    assert output[..put2] == before + [v];
    assert d.out == hist + output[..put2];
  }

  // ---- giving back what was not needed ----

  /** The last bits held are the last bytes taken. */
  lemma {:induction false} LastBytes(input: seq<byte>, r0: Regs, r: Regs, len: nat)
    requires RegsOk(r0, input) && RegsOk(r, input) && r0.ipos <= r.ipos - len
        && Tail(Unread(r, input), Unread(r0, input)) && 8 * len <= r.bits
    ensures HeldBits(r)[r.bits - 8 * len..] == BytesBits(input[r.ipos - len..r.ipos])
  {
    hide ToBits, BytesBits;
    var k := r.ipos - len;
    var mid, rest := input[k..r.ipos], input[r.ipos..];
    var front := input[r0.ipos..k];
    assert input[r0.ipos..] == front + (mid + rest);
    BytesBitsConcat(front, mid + rest);
    BytesBitsConcat(mid, rest);
    var a, b := Unread(r, input), Unread(r0, input);
    var h := HeldBits(r)[r.bits - 8 * len..];
    assert a[r.bits - 8 * len..] == h + BytesBits(rest);
    var n := 8 * len + 8 * |rest|;
    assert a[|a| - n..] == b[|b| - n..];
    assert b[|b| - n..] == BytesBits(mid) + BytesBits(rest);
    assert (h + BytesBits(rest))[..8 * len] == h;
    assert (BytesBits(mid) + BytesBits(rest))[..8 * len] == BytesBits(mid);
  }

  /** Give the whole bytes held back to the input. */
  method GiveBack(input: seq<byte>, ghost r0: Regs, r1: Regs) returns (r: Regs)
    requires RegsOk(r0, input) && RegsOk(r1, input) && r0.ipos <= r1.ipos && Tail(Unread(r1, input), Unread(r0, input))
    requires Owed(r0, r1) < 8
    ensures RegsOk(r, input) && r.bits < 8 && r0.ipos <= r.ipos && Unread(r, input) == Unread(r1, input)
    ensures r.bits - 8 * r.ipos == r1.bits - 8 * r1.ipos
  {
    hide Tail, BytesBits;
    var len := r1.bits / 8;
    var bits := r1.bits - 8 * len;
    LastBytes(input, r0, r1, len);
    ShlShrLow(r1.hold, bits);
    r := Regs(Low(r1.hold, bits), bits, r1.ipos - len);
    ReadBits(r1.hold, r1.bits, bits);
    LowBits(r1.hold, r1.bits, bits);
    var mid, rest := input[r.ipos..r1.ipos], input[r1.ipos..];
    assert input[r.ipos..] == mid + rest;
    BytesBitsConcat(mid, rest);
    assert Unread(r, input) == HeldBits(r) + (BytesBits(mid) + BytesBits(rest));
    assert HeldBits(r1) == HeldBits(r1)[..bits] + HeldBits(r1)[bits..];
  }

  lemma {:induction false} LowBits(hold: nat, bits: nat, n: nat)
    requires n <= bits
    ensures ToBits(Low(hold, n), n) == ToBits(hold, bits)[..n]
  {
    ToBitsLow(hold, n);
    ToBitsSplit(hold, n, bits - n);
  }

  lemma {:induction false} StillIs(s: InflateState, c: R.Cfg, d: R.Cfg)
    requires s.Shape() && s.Is(c) && s.mode == LEN && d.mode.Len? && d.last == c.last && d.ll == c.ll && d.dl == c.dl
    ensures s.Is(d)
  {
    hide TableOk;
  }

  /** Decode while there is plenty of input and room. */
  method InflateFast(s: InflateState, ghost c: R.Cfg, input: seq<byte>, r0: Regs, output: array<byte>, put: nat,
      ghost hist: seq<byte>)
    returns (r: Regs, put2: nat, ghost d: R.Cfg)
    requires s.At(c, input, r0, output, put, hist) && s.mode == LEN && s.WindowOk(hist)
    requires |input| - r0.ipos >= 6 && output.Length - put >= 258
    modifies output, s`mode, s`err
    ensures s.At(d, input, r, output, put2, hist) && R.Reaches(c, d) && Less(input, r, r0) && r.ipos >= r0.ipos
    ensures put2 >= put && output[..put] == old(output[..put])
    ensures s.mode == LEN || s.mode == TYPE || s.mode == BAD
  {
    hide R.Step, R.Reaches, InflateState.WindowOk, Unread, R.Valid, TableOk, Pow2, Ends, Tail, InflateState.Is,
         InflateState.IsMode,
         InflateState.Few, Fresh, HeldBits, InpOk;
    s.FewCode(c, r0);
    s.IsFields(c);
    FastStart(s, c, r0, input);
    var last, end := |input| - 5, output.Length - 257;
    var m, e;
    r, put2, m, e, d := FastTurn(s, c, input, r0, output, put, hist);
    while m == LEN && r.ipos < last && put2 < end
      invariant RegsOk(r, input) && Tail(Unread(r, input), Unread(r0, input)) && Less(input, r, r0)
          && r.ipos >= r0.ipos && Owed(r0, r) < 8
      invariant Ends(c, d, m, e, input, r) && put <= put2 <= output.Length
      invariant output[..put] == old(output[..put]) && d.out == hist + output[..put2]
      invariant s.Is(c) && s.mode == LEN && s.WindowOk(hist)
      decreases 8 * |input| + r.bits - 8 * r.ipos
      modifies output
    {
      ghost var d1, r1 := d, r;
      EndsLen(c, d, e, input, r);
      StillIs(s, c, d);
      ghost var was := output[..put2];
      assert was[..put] == output[..put];
      r, put2, m, e, d := FastTurn(s, d1, input, r, output, put2, hist);
      assert output[..put] == was[..put];
      EndsTrans(c, d1, d, m, e, input, r);
      TailTrans(Unread(r, input), Unread(r1, input), Unread(r0, input));
    }
    var q := r;
    r := GiveBack(input, r0, q);
    FastEnd(s, c, d, m, e, input, q, r);
  }

  lemma {:induction false} EndsLen(c: R.Cfg, d: R.Cfg, e: R.Error, input: seq<byte>, r: Regs)
    requires RegsOk(r, input) && Ends(c, d, LEN, e, input, r)
    ensures R.Reaches(c, d) && R.Valid(d) && d.mode.Len? && d.inp == Unread(r, input) && d.last == c.last
        && d.ll == c.ll && d.dl == c.dl
  {
  }

  lemma {:induction false} FastStart(s: InflateState, c: R.Cfg, r: Regs, input: seq<byte>)
    requires s.Shape() && s.Is(c) && s.mode == LEN && RegsOk(r, input) && InpOk(c, r, input)
    ensures c.inp == Unread(r, input) && s.ll == c.ll
  {
    hide TableOk, Unread;
  }

  /** Leave the fast loop in mode m. */
  method FastEnd(s: InflateState, ghost c: R.Cfg, ghost d: R.Cfg, m: InflateMode, e: R.Error, ghost input: seq<byte>,
      ghost q: Regs, ghost r: Regs)
    requires s.Shape() && s.Is(c) && s.mode == LEN && RegsOk(q, input) && Ends(c, d, m, e, input, q)
    requires RegsOk(r, input) && Unread(r, input) == Unread(q, input) && r.bits < 8
    modifies s`mode, s`err
    ensures s.Is(d) && s.mode == m && InpOk(d, r, input) && s.Few(d, r) && R.Valid(d) && R.Reaches(c, d)
    ensures m == LEN || m == TYPE || m == BAD
  {
    hide TableOk, Unread, R.Valid, R.Reaches, R.Step, HeldBits;
    s.mode := m;
    if m == BAD { s.err := e; }
  }
}
