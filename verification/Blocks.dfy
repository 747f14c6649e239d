/** What a compressed block says (trees.c): tokens, the symbols and extra bits they are sent
    as, and the proof that the machine of module Rfc1951 reads a block back. */
module Blocks {
  import opened Bits
  import opened Canonical
  import InfTrees
  import CL = CodeLengths
  import R = Rfc1951

  /** A literal byte, or a copy of length bytes from dist places back. */
  datatype Token = Literal(b: byte) | Match(length: nat, dist: nat)

  ghost predicate TokenOk(t: Token) {
    t.Match? ==> 3 <= t.length <= 258 && 1 <= t.dist <= 32768
  }

  /** The token can be carried out after the bytes out. */
  ghost predicate Fits(out: seq<byte>, t: Token) {
    TokenOk(t) && (t.Match? ==> t.dist <= |out|)
  }

  function Apply(out: seq<byte>, t: Token): (r: seq<byte>)
    requires Fits(out, t)
    ensures out <= r
  {
    match t
    case Literal(b) => out + [b]
    case Match(length, dist) => R.Extend(out, dist, length)
  }

  /** All tokens can be carried out in turn. */
  ghost predicate AllFit(out: seq<byte>, ts: seq<Token>)
    decreases |ts|, 0
  {
    ts == [] || (AllFit(out, ts[..|ts| - 1]) && Fits(ApplyAll(out, ts[..|ts| - 1]), ts[|ts| - 1]))
  }

  /** The bytes after the tokens. */
  function ApplyAll(out: seq<byte>, ts: seq<Token>): (r: seq<byte>)
    requires AllFit(out, ts)
    ensures out <= r
    decreases |ts|, 1
  {
    if ts == [] then out else Apply(ApplyAll(out, ts[..|ts| - 1]), ts[|ts| - 1])
  }

  // ---- length and distance codes ----

  /** The last code, from c down, whose lengths start no later than lc + 3. */
  function LenCodeFrom(lc: nat, c: nat): (r: nat)
    requires c < 28
    ensures r <= c
  {
    if c == 0 || R.LengthBase(c) <= lc + 3 then c else LenCodeFrom(lc, c - 1)
  }

  /** _length_code: the code of match length lc + 3. The longest match has a code of its own. */
  function LenCode(lc: nat): (c: nat)
    ensures c < 29
  {
    if lc == 255 then 28 else LenCodeFrom(lc, 27)
  }

  function DistCodeFrom(d: nat, c: nat): (r: nat)
    requires c < 30
    ensures r <= c
  {
    if c == 0 || R.DistBase(c) <= d + 1 then c else DistCodeFrom(d, c - 1)
  }

  /** d_code: the code of distance d + 1. */
  function DistCode(d: nat): (c: nat)
    ensures c < 30
  {
    DistCodeFrom(d, 29)
  }

  /** The lengths of consecutive codes follow each other without gaps. */
  lemma {:induction false} LengthNext(c: nat)
    requires c < 27
    ensures R.LengthBase(c + 1) == R.LengthBase(c) + Pow2(R.LengthExtra(c))
  {
    hide Pow2;
    R.SmallPow2();
  }

  lemma {:induction false} DistNext(c: nat)
    requires c < 29
    ensures R.DistBase(c + 1) == R.DistBase(c) + Pow2(R.DistExtra(c))
  {
    hide Pow2;
    R.SmallPow2();
  }

  lemma {:induction false} LastLength()
    ensures R.LengthBase(27) == 227 && R.LengthExtra(27) == 5 && R.LengthBase(0) == 3 && Pow2(5) == 32
    ensures R.LengthBase(28) == 258 && R.LengthExtra(28) == 0 && Pow2(0) == 1
  {
  }

  lemma {:induction false} LastDist()
    ensures R.DistBase(29) == 24577 && R.DistExtra(29) == 13 && R.DistBase(0) == 1 && Pow2(13) == 8192
  {
    R.SmallPow2();
  }

  /** The code found is the one whose lengths include this one. */
  lemma {:induction false} LenCodeFromHolds(lc: nat, c: nat)
    requires c < 28 && lc + 3 < R.LengthBase(c) + Pow2(R.LengthExtra(c))
    ensures var r := LenCodeFrom(lc, c);
            R.LengthBase(r) <= lc + 3 < R.LengthBase(r) + Pow2(R.LengthExtra(r))
  {
    hide R.LengthBase, R.LengthExtra, Pow2;
    if c == 0 {
      LastLength();
    } else if R.LengthBase(c) > lc + 3 {
      LengthNext(c - 1);
      LenCodeFromHolds(lc, c - 1);
    }
  }

  lemma {:induction false} LenCodeHolds(lc: nat)
    requires lc <= 255
    ensures var c := LenCode(lc);
            R.LengthBase(c) <= lc + 3 < R.LengthBase(c) + Pow2(R.LengthExtra(c))
  {
    hide R.LengthBase, R.LengthExtra, Pow2;
    LastLength();
    if lc < 255 { LenCodeFromHolds(lc, 27); }
  }

  lemma {:induction false} DistCodeFromHolds(d: nat, c: nat)
    requires c < 30 && d + 1 < R.DistBase(c) + Pow2(R.DistExtra(c))
    ensures var r := DistCodeFrom(d, c);
            R.DistBase(r) <= d + 1 < R.DistBase(r) + Pow2(R.DistExtra(r))
  {
    hide R.DistBase, R.DistExtra, Pow2;
    if c == 0 {
      LastDist();
    } else if R.DistBase(c) > d + 1 {
      DistNext(c - 1);
      DistCodeFromHolds(d, c - 1);
    }
  }

  lemma {:induction false} DistCodeHolds(d: nat)
    requires d < 32768
    ensures var c := DistCode(d);
            R.DistBase(c) <= d + 1 < R.DistBase(c) + Pow2(R.DistExtra(c))
  {
    hide R.DistBase, R.DistExtra, Pow2;
    LastDist();
    DistCodeFromHolds(d, 29);
  }

  // ---- the bits of a token ----

  function LengthSymbol(t: Token): nat {
    match t
    case Literal(b) => b
    case Match(length, dist) => if length < 3 then 0 else 257 + LenCode(length - 3)
  }

  function DistSymbol(t: Token): nat {
    if t.Match? && t.dist >= 1 then DistCode(t.dist - 1) else 0
  }

  /** Both codes have the symbols of the token. */
  ghost predicate Sendable(ll: seq<nat>, dl: seq<nat>, t: Token) {
    TokenOk(t) && Used(ll, LengthSymbol(t)) && (t.Match? ==> Used(dl, DistSymbol(t)))
  }

  function LengthExtraBits(length: nat): seq<bool>
    requires 3 <= length <= 258
  {
    var c := LenCode(length - 3);
    LenCodeHolds(length - 3);
    ToBits(length - R.LengthBase(c), R.LengthExtra(c))
  }

  function DistExtraBits(dist: nat): seq<bool>
    requires 1 <= dist <= 32768
  {
    var c := DistCode(dist - 1);
    DistCodeHolds(dist - 1);
    ToBits(dist - R.DistBase(c), R.DistExtra(c))
  }

  function LengthBits(ll: seq<nat>, t: Token): seq<bool>
    requires TokenOk(t) && Used(ll, LengthSymbol(t))
  {
    CodeBits(ll, LengthSymbol(t)) + if t.Match? then LengthExtraBits(t.length) else []
  }

  function DistBits(dl: seq<nat>, t: Token): seq<bool>
    requires TokenOk(t) && (t.Match? ==> Used(dl, DistSymbol(t)))
  {
    if t.Match? then CodeBits(dl, DistSymbol(t)) + DistExtraBits(t.dist) else []
  }

  function TokenBits(ll: seq<nat>, dl: seq<nat>, t: Token): seq<bool>
    requires Sendable(ll, dl, t)
  {
    LengthBits(ll, t) + DistBits(dl, t)
  }

  ghost predicate AllSendable(ll: seq<nat>, dl: seq<nat>, ts: seq<Token>) {
    forall i :: 0 <= i < |ts| ==> Sendable(ll, dl, ts[i])
  }

  function TokensBits(ll: seq<nat>, dl: seq<nat>, ts: seq<Token>): seq<bool>
    requires AllSendable(ll, dl, ts)
  {
    if ts == [] then [] else TokensBits(ll, dl, ts[..|ts| - 1]) + TokenBits(ll, dl, ts[|ts| - 1])
  }

  /** The body of a compressed block: its tokens, and the end. */
  function BodyBits(ll: seq<nat>, dl: seq<nat>, ts: seq<Token>): seq<bool>
    requires AllSendable(ll, dl, ts) && Used(ll, 256)
  {
    TokensBits(ll, dl, ts) + CodeBits(ll, 256)
  }

  // ---- reading tokens back ----

  lemma {:induction false} PeekField(v: nat, n: nat, rest: seq<bool>)
    requires v < Pow2(n)
    ensures var b := ToBits(v, n) + rest; R.Peek(b, n) == v && b[n..] == rest
  {
    FromToBits(v, n);
    LowSmall(v, n);
    assert (ToBits(v, n) + rest)[..n] == ToBits(v, n);
  }

  /** The machine reads a symbol of the literal and length code. */
  lemma {:induction false} ReadLengthSymbol(c: R.Cfg, s: nat, rest: seq<bool>)
    requires R.Valid(c) && c.mode.Len? && Used(c.ll, s) && s <= 285 && c.inp == CodeBits(c.ll, s) + rest
    ensures R.Step(c) == R.Some(R.LenSymbol(c.(inp := rest), s))
  {
    assert NotOver(c.ll);
    hide R.Valid, R.Step, NotOver, CodeBits;
    R.StepCases(c);
    DecodeCode(c.ll, s, rest);
    assert c.inp[c.ll[s]..] == rest;
  }

  lemma {:induction false} ReadDistSymbol(c: R.Cfg, s: nat, rest: seq<bool>)
    requires R.Valid(c) && c.mode.Dist? && Used(c.dl, s) && c.inp == CodeBits(c.dl, s) + rest
    ensures R.Step(c) == R.Some(R.DistSymbol(c.(inp := rest), s))
  {
    assert NotOver(c.dl);
    hide R.Valid, R.Step, NotOver, CodeBits;
    R.StepCases(c);
    DecodeCode(c.dl, s, rest);
    assert c.inp[c.dl[s]..] == rest;
  }

  /** ... the length of a match, */
  lemma {:induction false} ReadLength(c: R.Cfg, t: Token, rest: seq<bool>)
    requires R.Valid(c) && c.mode.Len? && t.Match? && TokenOk(t) && Used(c.ll, LengthSymbol(t))
        && c.inp == LengthBits(c.ll, t) + rest
    ensures var d := c.(mode := R.Dist(t.length), inp := rest); R.Valid(d) && R.Reaches(c, d)
  {
    hide R.Valid, R.Step, R.Reaches, CodeBits, R.LengthBase, R.LengthExtra, Pow2, R.Peek, ToBits;
    var k := LenCode(t.length - 3);
    LenCodeHolds(t.length - 3);
    var x := LengthExtraBits(t.length);
    assert c.inp == CodeBits(c.ll, 257 + k) + (x + rest);
    ReadLengthSymbol(c, 257 + k, x + rest);
    var d := R.Went(c);
    R.StepCases(d);
    PeekField(t.length - R.LengthBase(k), R.LengthExtra(k), rest);
    var e := R.Went(d);
    R.ReachesTrans(c, d, e);
  }

  /** ... and its distance. */
  lemma {:induction false} ReadDist(c: R.Cfg, t: Token, rest: seq<bool>)
    requires R.Valid(c) && t.Match? && c.mode == R.Dist(t.length) && TokenOk(t) && Used(c.dl, DistSymbol(t))
        && c.inp == DistBits(c.dl, t) + rest
    ensures var d := c.(mode := R.Match(t.length, t.dist), inp := rest); R.Valid(d) && R.Reaches(c, d)
  {
    hide R.Valid, R.Step, R.Reaches, CodeBits, R.DistBase, R.DistExtra, Pow2, R.Peek, ToBits;
    var k := DistCode(t.dist - 1);
    DistCodeHolds(t.dist - 1);
    var x := DistExtraBits(t.dist);
    assert c.inp == CodeBits(c.dl, k) + (x + rest);
    ReadDistSymbol(c, k, x + rest);
    var d := R.Went(c);
    R.StepCases(d);
    PeekField(t.dist - R.DistBase(k), R.DistExtra(k), rest);
    var e := R.Went(d);
    R.ReachesTrans(c, d, e);
  }

  /** The machine reads a token back and carries it out. */
  lemma {:induction false} ReadToken(c: R.Cfg, t: Token, rest: seq<bool>)
    requires R.Valid(c) && c.mode.Len? && Sendable(c.ll, c.dl, t) && Fits(c.out, t)
        && c.inp == TokenBits(c.ll, c.dl, t) + rest
    ensures var d := c.(out := Apply(c.out, t), inp := rest); R.Valid(d) && R.Reaches(c, d)
  {
    hide R.Valid, R.Step, R.Reaches, CodeBits, LengthExtraBits, DistExtraBits, R.Extend;
    match t
    case Literal(v) =>
      assert c.inp == CodeBits(c.ll, v) + rest;
      ReadLengthSymbol(c, v, rest);
      var d := R.Went(c);
      R.StepCases(d);
      var e := R.Went(d);
      R.ReachesTrans(c, d, e);
    case Match(length, dist) =>
      assert c.inp == LengthBits(c.ll, t) + (DistBits(c.dl, t) + rest);
      ReadLength(c, t, DistBits(c.dl, t) + rest);
      var d := c.(mode := R.Dist(length), inp := DistBits(c.dl, t) + rest);
      ReadDist(d, t, rest);
      var e := c.(mode := R.Match(length, dist), inp := rest);
      R.MatchSteps(e, length);
      R.ReachesTrans(c, d, e);
      R.ReachesTrans(c, e, R.Matched(e, length));
  }

  lemma {:induction false} ReadTokens(c: R.Cfg, ts: seq<Token>, rest: seq<bool>)
    requires R.Valid(c) && c.mode.Len? && AllSendable(c.ll, c.dl, ts) && AllFit(c.out, ts)
        && c.inp == TokensBits(c.ll, c.dl, ts) + rest
    ensures var d := c.(out := ApplyAll(c.out, ts), inp := rest); R.Valid(d) && R.Reaches(c, d)
    decreases |ts|
  {
    hide R.Valid, R.Step, R.Reaches, Fits, Apply, TokenBits, Sendable;
    if ts == [] {
      assert c.inp == rest;
      R.ReachesRefl(c);
    } else {
      var n := |ts| - 1;
      var b := TokenBits(c.ll, c.dl, ts[n]);
      assert c.inp == TokensBits(c.ll, c.dl, ts[..n]) + (b + rest);
      ReadTokens(c, ts[..n], b + rest);
      var d := c.(out := ApplyAll(c.out, ts[..n]), inp := b + rest);
      ReadToken(d, ts[n], rest);
      R.ReachesTrans(c, d, c.(out := ApplyAll(c.out, ts), inp := rest));
    }
  }

  /** The body of a block is read back up to and including its end. */
  lemma {:induction false} ReadBody(c: R.Cfg, ts: seq<Token>, rest: seq<bool>)
    requires R.Valid(c) && c.mode.Len? && AllSendable(c.ll, c.dl, ts) && AllFit(c.out, ts) && Used(c.ll, 256)
    requires c.inp == BodyBits(c.ll, c.dl, ts) + rest
    ensures var d := c.(mode := R.Type, out := ApplyAll(c.out, ts), inp := rest); R.Valid(d) && R.Reaches(c, d)
  {
    hide R.Valid, R.Step, R.Reaches, AllSendable, CodeBits, ApplyAll, TokensBits;
    var e := CodeBits(c.ll, 256);
    assert c.inp == TokensBits(c.ll, c.dl, ts) + (e + rest);
    ReadTokens(c, ts, e + rest);
    var d := c.(out := ApplyAll(c.out, ts), inp := e + rest);
    ReadLengthSymbol(d, 256, rest);
    R.ReachesTrans(c, d, R.Went(d));
  }

  // ---- the three forms of a block ----

  /** Bytes as they are; tokens in the fixed codes; tokens in codes that the block announces. */
  datatype Form = Stored(bytes: seq<byte>) | Static(ts: seq<Token>)
                | Dynamic(dts: seq<Token>, ll: seq<nat>, dl: seq<nat>, bl: seq<nat>, blcodes: nat)

  function Flag(b: bool): nat {
    if b then 1 else 0
  }

  function StaticL(): (s: seq<nat>)
    ensures |s| == 288
  {
    R.FixedLens(InfTrees.LENS)
  }

  function StaticD(): (s: seq<nat>)
    ensures |s| == 32
  {
    R.FixedLens(InfTrees.DISTS)
  }

  /** The form can be sent. */
  ghost predicate FormOk(f: Form) {
    match f
    case Stored(bytes) => |bytes| <= 0xffff
    case Static(ts) => AllSendable(StaticL(), StaticD(), ts) && Used(StaticL(), 256)
    case Dynamic(ts, ll, dl, bl, blcodes) =>
      AllSendable(ll, dl, ts) && Used(ll, 256) && CL.Announced(ll, dl, bl, blcodes) && R.GoodCode(ll) && R.GoodCode(dl)
  }

  /** A dynamic block is read by a decoder whose tables have limited space. It is meant to be
      enough for every code, which an exhaustive search has shown but is not proved here. */
  ghost predicate Readable(f: Form) {
    FormOk(f) && (f.Dynamic? ==> InfTrees.Fits(InfTrees.LENS, f.ll, 9) && InfTrees.Fits(InfTrees.DISTS, f.dl, 6))
  }

  /** Zeros up to the next byte boundary after n bits. */
  function Padding(n: nat): (b: seq<bool>)
    ensures |b| < 8 && (n + |b|) % 8 == 0
  {
    Zeros((8 - n % 8) % 8)
  }

  /** The bits of a block that starts after at bits of the stream. */
  function BlockBits(f: Form, last: bool, at: nat): seq<bool>
    requires FormOk(f)
  {
    match f
    case Stored(bytes) =>
      ToBits(Flag(last), 3) + Padding(at + 3) + ToBits(|bytes|, 16) + ToBits(0xffff - |bytes|, 16) + BytesBits(bytes)
    case Static(ts) => ToBits(2 + Flag(last), 3) + BodyBits(StaticL(), StaticD(), ts)
    case Dynamic(ts, ll, dl, bl, blcodes) =>
      ToBits(4 + Flag(last), 3) + CL.TreesBits(ll, dl, bl, blcodes) + BodyBits(ll, dl, ts)
  }

  ghost predicate FormFits(f: Form, out: seq<byte>) {
    match f
    case Stored(bytes) => true
    case Static(ts) => AllFit(out, ts)
    case Dynamic(ts, ll, dl, bl, blcodes) => AllFit(out, ts)
  }

  /** The bytes after the block. */
  function Produced(f: Form, out: seq<byte>): seq<byte>
    requires FormFits(f, out)
  {
    match f
    case Stored(bytes) => out + bytes
    case Static(ts) => ApplyAll(out, ts)
    case Dynamic(ts, ll, dl, bl, blcodes) => ApplyAll(out, ts)
  }

  lemma {:induction false} HeaderField(typ: nat, last: bool, rest: seq<bool>)
    requires typ < 3
    ensures var b := ToBits(2 * typ + Flag(last), 3) + rest;
            b[0] == last && R.Peek(b[1..], 2) == typ && b[3..] == rest
  {
    assert Pow2(2) == 4;
    var h := ToBits(2 * typ + Flag(last), 3);
    assert h == [last] + ToBits(typ, 2);
    assert (h + rest)[1..] == ToBits(typ, 2) + rest;
    PeekField(typ, 2, rest);
  }

  /** The machine reads the header of a block. */
  lemma {:induction false} ReadHeader(c: R.Cfg, typ: nat, last: bool, rest: seq<bool>)
    requires c.mode.Type? && !c.last && typ < 3 && c.inp == ToBits(2 * typ + Flag(last), 3) + rest
    ensures R.Valid(c)
    ensures var d := R.BlockStart(c.(last := last, inp := rest), typ); R.Valid(d) && R.Reaches(c, d)
  {
    assert R.Valid(c);
    HeaderField(typ, last, rest);
    hide R.Step, R.Reaches, R.Valid, R.BlockStart, R.Peek, ToBits;
    R.StepCases(c);
    var d := R.Went(c);
  }

  lemma {:induction false} Halves(n: nat)
    requires n <= 0xffff
    ensures n < Pow2(16)
  {
    R.SmallPow2();
    assert Pow2(14) == 16384 && Pow2(16) == 65536;
  }

  lemma {:induction false} StoredFields(n: nat, b: seq<bool>, rest: seq<bool>)
    requires n <= 0xffff && b == ToBits(n, 16) + (ToBits(0xffff - n, 16) + rest)
    ensures |b| >= 32 && R.Peek(b, 16) == n && R.Peek(b[16..], 16) == 0xffff - n && b[32..] == rest
  {
    hide R.Peek, ToBits, Pow2;
    Halves(n);
    Halves(0xffff - n);
    PeekField(n, 16, ToBits(0xffff - n, 16) + rest);
    PeekField(0xffff - n, 16, rest);
    assert b[16..] == ToBits(0xffff - n, 16) + rest;
    assert b[32..] == b[16..][16..];
  }

  lemma {:induction false} StoredStep(c: R.Cfg, n: nat, data: seq<bool>)
    requires c.mode.Stored? && n <= 0xffff && c.inp == ToBits(n, 16) + (ToBits(0xffff - n, 16) + data)
    ensures R.Valid(c) && R.Step(c) == R.Some(c.(mode := R.Copy(n), inp := data))
  {
    StoredFields(n, c.inp, data);
    assert R.Valid(c);
    hide R.Valid, R.Peek, ToBits;
  }

  lemma {:induction false} ReadStored(c: R.Cfg, bytes: seq<byte>, rest: seq<bool>)
    requires c.mode.Stored? && |bytes| <= 0xffff
    requires c.inp == ToBits(|bytes|, 16) + (ToBits(0xffff - |bytes|, 16) + (BytesBits(bytes) + rest))
    ensures R.Reaches(c, c.(mode := R.Type, out := c.out + bytes, inp := rest))
  {
    hide R.Step, R.Reaches, R.Valid, ToBits, BytesBits;
    var n := |bytes|;
    var data := BytesBits(bytes) + rest;
    StoredStep(c, n, data);
    var d := R.Went(c);
    R.CopySteps(d, bytes, rest);
    var e := R.Copied(d, bytes, rest);
    CopyDone(e);
    var g := R.Went(e);
    R.ReachesTrans(c, d, e);
    R.ReachesTrans(c, e, g);
  }

  lemma {:induction false} CopyDone(c: R.Cfg)
    requires c.mode == R.Copy(0)
    ensures R.Valid(c) && R.Step(c) == R.Some(c.(mode := R.Type))
  {
  }

  lemma {:induction false} StoredParts(head: seq<bool>, pad: seq<bool>, a: seq<bool>, b: seq<bool>, data: seq<bool>,
      rest: seq<bool>)
    ensures head + pad + a + b + data + rest == head + (pad + (a + (b + (data + rest))))
  {
    var tail := b + (data + rest);
    assert head + pad + a + b + data + rest == head + pad + a + tail;
    assert head + pad + a + tail == head + (pad + (a + tail));
  }

  /** The padding of a stored block ends at a byte boundary of the stream. */
  lemma {:induction false} StoredAligned(at: nat, head: seq<bool>, pad: seq<bool>, body: seq<bool>)
    requires |head| == 3 && |pad| < 8 && (at + 3 + |pad|) % 8 == 0 && (at + |head + (pad + body)|) % 8 == 0
    ensures R.Aligned(pad + body) == body
  {
    assert |body| % 8 == 0;
    assert |pad + body| % 8 == |pad|;
    assert (pad + body)[|pad|..] == body;
  }

  lemma {:induction false} ReadStoredBlock(c: R.Cfg, bytes: seq<byte>, last: bool, at: nat, rest: seq<bool>)
    requires c.mode.Type? && !c.last && |bytes| <= 0xffff
    requires c.inp == BlockBits(Stored(bytes), last, at) + rest && (at + |c.inp|) % 8 == 0
    ensures R.Reaches(c, c.(last := last, out := c.out + bytes, inp := rest))
  {
    hide R.Step, R.Reaches, R.Valid, ToBits, BytesBits, Padding, R.Aligned;
    var pad := Padding(at + 3);
    var n := |bytes|;
    var head, a, b, data := ToBits(Flag(last), 3), ToBits(n, 16), ToBits(0xffff - n, 16), BytesBits(bytes);
    var body := a + (b + (data + rest));
    StoredParts(head, pad, a, b, data, rest);
    ReadHeader(c, 0, last, pad + body);
    var d := c.(last := last, inp := pad + body);
    StoredAligned(at, head, pad, body);
    ReadStored(d.(mode := R.Stored, inp := body), bytes, rest);
    R.ReachesTrans(c, R.BlockStart(d, 0), d.(out := d.out + bytes, inp := rest));
  }

  lemma {:induction false} ReadStaticBlock(c: R.Cfg, ts: seq<Token>, last: bool, at: nat, rest: seq<bool>)
    requires c.mode.Type? && !c.last && FormOk(Static(ts)) && AllFit(c.out, ts)
    requires c.inp == BlockBits(Static(ts), last, at) + rest
    ensures
        exists d :: R.Reaches(c, d) && d.mode.Type? && d.last == last && d.out == ApplyAll(c.out, ts)
          && d.inp == rest
  {
    hide R.Step, R.Reaches, R.Valid, ToBits, AllSendable, BodyBits, CodeBits, AllFit, ApplyAll, R.FixedLens;
    var body := BodyBits(StaticL(), StaticD(), ts);
    assert c.inp == ToBits(2 + Flag(last), 3) + (body + rest);
    ReadHeader(c, 1, last, body + rest);
    var d := c.(last := last, inp := body + rest, mode := R.Len, ll := StaticL(), dl := StaticD());
    ReadBody(d, ts, rest);
    var e := d.(mode := R.Type, out := ApplyAll(c.out, ts), inp := rest);
    R.ReachesTrans(c, d, e);
  }

  lemma {:induction false} ReadDynamicBlock(c: R.Cfg, f: Form, last: bool, at: nat, rest: seq<bool>)
    requires f.Dynamic? && c.mode.Type? && !c.last && Readable(f) && AllFit(c.out, f.dts)
    requires c.inp == BlockBits(f, last, at) + rest
    ensures
        exists d :: R.Reaches(c, d) && d.mode.Type? && d.last == last && d.out == ApplyAll(c.out, f.dts)
          && d.inp == rest
  {
    hide R.Step, R.Reaches, R.Valid, ToBits, AllSendable, BodyBits, CodeBits, AllFit, ApplyAll, CL.Announced,
         CL.TreesBits, R.GoodCode, InfTrees.Fits;
    var trees, body := CL.TreesBits(f.ll, f.dl, f.bl, f.blcodes), BodyBits(f.ll, f.dl, f.dts);
    assert c.inp == ToBits(4 + Flag(last), 3) + (trees + (body + rest));
    ReadHeader(c, 2, last, trees + (body + rest));
    var d := c.(last := last, inp := trees + (body + rest), mode := R.Table);
    CL.ReadTrees(d, f.ll, f.dl, f.bl, f.blcodes, body + rest);
    var e := d.(mode := R.Len, ll := f.ll, dl := f.dl, inp := body + rest);
    R.ReachesTrans(c, d, e);
    ReadBody(e, f.dts, rest);
    R.ReachesTrans(c, e, e.(mode := R.Type, out := ApplyAll(c.out, f.dts), inp := rest));
  }

  /** Every block is read back, whatever its form: the machine produces exactly the bytes the
      block stands for and is left at the first bit behind it, with the block's last flag. */
  lemma {:induction false} ReadBlock(c: R.Cfg, f: Form, last: bool, at: nat, rest: seq<bool>) returns (d: R.Cfg)
    requires c.mode.Type? && !c.last && Readable(f) && FormFits(f, c.out)
    requires c.inp == BlockBits(f, last, at) + rest && (at + |c.inp|) % 8 == 0
    ensures R.Reaches(c, d) && d.mode.Type? && d.last == last && d.out == Produced(f, c.out) && d.inp == rest
  {
    hide R.Reaches, BlockBits, AllFit, ApplyAll, AllSendable, CL.Announced, R.GoodCode, InfTrees.Fits;
    match f
    case Stored(bytes) =>
      ReadStoredBlock(c, bytes, last, at, rest);
      d := c.(last := last, out := c.out + bytes, inp := rest);
    case Static(ts) =>
      ReadStaticBlock(c, ts, last, at, rest);
      d :| R.Reaches(c, d) && d.mode.Type? && d.last == last && d.out == ApplyAll(c.out, ts) && d.inp == rest;
    case Dynamic(ts, ll, dl, bl, blcodes) =>
      ReadDynamicBlock(c, f, last, at, rest);
      d :| R.Reaches(c, d) && d.mode.Type? && d.last == last && d.out == ApplyAll(c.out, ts) && d.inp == rest;
  }
}
