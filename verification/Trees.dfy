/** Writing a block (trees.c): the run-length form of the trees, the tokens, and the choice
    between the three forms. */
module Trees {
  import opened Bits
  import opened BitWriter
  import opened Blocks
  import opened GenCodes
  import opened TreeBuild
  import opened Depths
  import Canonical
  import CL = CodeLengths
  import H = Huffman
  import InfTrees
  import R = Rfc1951

  // ---- frequencies and costs ----

  /** All symbols below n. */
  ghost function All(n: nat): (A: set<nat>)
    ensures forall x: nat :: x in A <==> x < n
  {
    if n == 0 then {} else All(n - 1) + {n - 1}
  }

  /** The bits that symbols of frequencies f take with lengths l, extra bits included. */
  ghost function SymbolBits(k: Kind, f: seq<nat>, l: seq<nat>): nat
    requires |f| == |l| && Elems(k) <= |f|
  {
    H.Cost(All(Elems(k)), f, l) + H.Cost(All(Elems(k)), f, ExtraOf(k, |f|))
  }

  lemma {:induction false} OnlyOccurring(f: seq<nat>, w: seq<nat>, n: nat)
    requires |f| == |w| && n <= |f|
    ensures H.Nodes(All(n), |w|) && H.Cost(All(n), f, w) == H.Cost(Occurring(f, n), f, w)
  {
    hide H.Times;
    if n > 0 {
      var m := n - 1;
      OnlyOccurring(f, w, m);
      assert m !in All(m) && m !in Occurring(f, m);
      H.SumAdd(All(m), H.Weighted(f, w), m);
      if f[m] != 0 { H.SumAdd(Occurring(f, m), H.Weighted(f, w), m); } else { ZeroTimes(w[m]); }
    }
  }

  lemma {:induction false} ZeroTimes(v: nat)
    ensures H.Times(0, v) == 0
  {
  }

  /** What build_tree adds up is what the symbols take. */
  lemma {:induction false} DynIsSymbolBits(k: Kind, f: seq<nat>, l: seq<nat>)
    requires |f| == |l| && Elems(k) <= |f|
    ensures DynCost(k, f, l) == SymbolBits(k, f, l)
    ensures k != BLTREE ==> StaticCost(k, Occurring(f, Elems(k)), f) == SymbolBits(k, f, StaticOf(k, |f|))
  {
    hide H.Cost;
    OnlyOccurring(f, l, Elems(k));
    OnlyOccurring(f, ExtraOf(k, |f|), Elems(k));
    OnlyOccurring(f, StaticOf(k, |f|), Elems(k));
  }

  /** One more symbol s takes its length and its extra bits more. */
  lemma {:induction false} OneMore(k: Kind, f: seq<nat>, l: seq<nat>, s: nat)
    requires |f| == |l| && Elems(k) <= |f| && s < Elems(k)
    ensures SymbolBits(k, f[s := f[s] + 1], l) == SymbolBits(k, f, l) + l[s] + XBits(k, s)
  {
    hide XBits;
    CostMore(All(Elems(k)), f, l, s);
    CostMore(All(Elems(k)), f, ExtraOf(k, |f|), s);
  }

  lemma {:induction false} CostMore(A: set<nat>, f: seq<nat>, l: seq<nat>, s: nat)
    requires |f| == |l| && H.Nodes(A, |l|) && s in A
    ensures H.Cost(A, f[s := f[s] + 1], l) == H.Cost(A, f, l) + l[s]
  {
    var g := f[s := f[s] + 1];
    H.SumRemove(A, H.Weighted(f, l), s);
    H.SumRemove(A, H.Weighted(g, l), s);
    H.SumSame(A - {s}, H.Weighted(f, l), H.Weighted(g, l));
    assert (f[s] + 1) * l[s] == f[s] * l[s] + l[s];
  }

  lemma {:induction false} NoSymbols(k: Kind, f: seq<nat>, l: seq<nat>)
    requires |f| == |l| && Elems(k) <= |f| && forall x :: 0 <= x < Elems(k) ==> f[x] == 0
    ensures SymbolBits(k, f, l) == 0
  {
    CostNone(All(Elems(k)), f, l);
    CostNone(All(Elems(k)), f, ExtraOf(k, |f|));
  }

  lemma {:induction false} CostNone(A: set<nat>, f: seq<nat>, l: seq<nat>)
    requires |f| == |l| && H.Nodes(A, |l|) && forall x :: x in A ==> f[x] == 0
    ensures H.Cost(A, f, l) == 0
    decreases |A|
  {
    if A != {} {
      var x :| x in A;
      H.SumRemove(A, H.Weighted(f, l), x);
      CostNone(A - {x}, f, l);
    }
  }

  // ---- what a token counts for ----

  /** The frequencies after the tokens ts, and after the operations ops. */
  function Bump(f: seq<nat>, s: nat): (g: seq<nat>)
    ensures |g| == |f|
  {
    if s < |f| then f[s := f[s] + 1] else f
  }

  function LengthFreqs(n: nat, ts: seq<Token>): (f: seq<nat>)
    ensures |f| == n
  {
    if ts == [] then R.Fill(n, 0) else Bump(LengthFreqs(n, ts[..|ts| - 1]), LengthSymbol(ts[|ts| - 1]))
  }

  function DistFreqs(n: nat, ts: seq<Token>): (f: seq<nat>)
    ensures |f| == n
  {
    if ts == [] then R.Fill(n, 0)
    else if ts[|ts| - 1].Match? then Bump(DistFreqs(n, ts[..|ts| - 1]), DistSymbol(ts[|ts| - 1]))
    else DistFreqs(n, ts[..|ts| - 1])
  }

  function BumpOps(f: seq<nat>, ops: seq<CL.Op>): (g: seq<nat>)
    ensures |g| == |f|
  {
    if ops == [] then f else Bump(BumpOps(f, ops[..|ops| - 1]), CL.OpSymbol(ops[|ops| - 1]))
  }

  lemma {:induction false} LengthSymbolRange(t: Token)
    requires TokenOk(t)
    ensures LengthSymbol(t) < 286 && LengthSymbol(t) != 256 && DistSymbol(t) < 30
    ensures t.Match?
        ==> |LengthExtraBits(t.length)| == XBits(LTREE, LengthSymbol(t))
            && |DistExtraBits(t.dist)| == XBits(DTREE, DistSymbol(t))
    ensures t.Literal? ==> XBits(LTREE, LengthSymbol(t)) == 0
  {
    hide R.LengthExtra, R.DistExtra, R.LengthBase, R.DistBase, LenCode, DistCode;
  }

  lemma {:induction false} TokenCost(ll: seq<nat>, dl: seq<nat>, t: Token)
    requires Sendable(ll, dl, t)
    ensures LengthSymbol(t) < 286 && LengthSymbol(t) < |ll| && (t.Match? ==> DistSymbol(t) < 30 && DistSymbol(t) < |dl|)
    ensures |TokenBits(ll, dl, t)| == ll[LengthSymbol(t)] + XBits(LTREE, LengthSymbol(t)) +
              if t.Match? then dl[DistSymbol(t)] + XBits(DTREE, DistSymbol(t)) else 0
  {
    hide XBits, LengthExtraBits, DistExtraBits, LenCode, DistCode, Canonical.CodeBits;
    LengthSymbolRange(t);
  }

  /** The tokens take what their symbols take. */
  lemma {:induction false} TokensCost(ll: seq<nat>, dl: seq<nat>, ts: seq<Token>, lw: seq<nat>, dw: seq<nat>)
    requires AllSendable(ll, dl, ts) && |lw| >= 286 && |dw| >= 30
    requires (forall s :: 0 <= s < 286 && s < |ll| ==> lw[s] == ll[s])
        && (forall s :: 0 <= s < 30 && s < |dl| ==> dw[s] == dl[s])
    ensures |TokensBits(ll, dl, ts)| == SymbolBits(LTREE, LengthFreqs(|lw|, ts), lw)
        + SymbolBits(DTREE, DistFreqs(|dw|, ts), dw)
    decreases |ts|
  {
    hide SymbolBits, XBits, TokenBits, Sendable, LengthSymbol, DistSymbol;
    if ts == [] {
      NoSymbols(LTREE, R.Fill(|lw|, 0), lw);
      NoSymbols(DTREE, R.Fill(|dw|, 0), dw);
    } else {
      var n := |ts| - 1;
      var t := ts[n];
      TokenCost(ll, dl, t);
      TokensCost(ll, dl, ts[..n], lw, dw);
      OneMore(LTREE, LengthFreqs(|lw|, ts[..n]), lw, LengthSymbol(t));
      if t.Match? { OneMore(DTREE, DistFreqs(|dw|, ts[..n]), dw, DistSymbol(t)); }
    }
  }

  lemma {:induction false} OpCost(bl: seq<nat>, op: CL.Op)
    requires CL.OpOk(op) && Canonical.Used(bl, CL.OpSymbol(op))
    ensures CL.OpSymbol(op) < 19 && |CL.OpBits(bl, op)| == bl[CL.OpSymbol(op)] + XBits(BLTREE, CL.OpSymbol(op))
  {
    hide Canonical.CodeBits;
  }

  /** The operations take what their symbols take. */
  lemma {:induction false} OpsCost(bl: seq<nat>, ops: seq<CL.Op>, f: seq<nat>, w: seq<nat>)
    requires CL.Sendable(bl, ops) && |w| >= 19 && forall s :: 0 <= s < 19 && s < |bl| ==> w[s] == bl[s]
    ensures |f| == |w| ==> SymbolBits(BLTREE, BumpOps(f, ops), w) == SymbolBits(BLTREE, f, w) + |CL.OpsBits(bl, ops)|
    decreases |ops|
  {
    hide SymbolBits, XBits, CL.OpBits, CL.OpSymbol, CL.OpOk;
    if ops != [] && |f| == |w| {
      var n := |ops| - 1;
      OpCost(bl, ops[n]);
      OpsCost(bl, ops[..n], f, w);
      OneMore(BLTREE, BumpOps(f, ops[..n]), w, CL.OpSymbol(ops[n]));
    }
  }

  // ---- sending ----

  /** There is room for n more bits in the buffer. */
  ghost predicate Room(w: Writer, n: nat)
    reads w
  {
    w.out == 0 && 8 * w.pending + w.bi_valid + n + 32 <= 8 * w.buf.Length
  }

  /** Send the n low bits of v, when there is room. */
  method Send(w: Writer, v: nat, n: nat, ghost room: nat)
    requires w.Valid() && Room(w, room) && n <= 16 && n <= room && v < Pow2(n)
    modifies w.buf, w`pending, w`bi_buf, w`bi_valid
    ensures old(w.pending) <= w.pending && forall k :: w.pending <= k < w.buf.Length ==> w.buf[k] == old(w.buf[k])
    ensures w.Valid() && Room(w, room - n) && w.Stream() == old(w.Stream()) + ToBits(v, n)
  {
    ghost var s := w.Stream();
    w.SendBits(v, n);
    assert |w.Stream()| == |s| + n;
  }

  /** send_code */
  method SendCode(w: Writer, codes: seq<nat>, lens: seq<nat>, s: nat, ghost room: nat)
    requires w.Valid() && Room(w, room) && CodesOk(codes, lens) && Canonical.Used(lens, s) && lens[s] <= room
    modifies w.buf, w`pending, w`bi_buf, w`bi_valid
    ensures old(w.pending) <= w.pending && forall k :: w.pending <= k < w.buf.Length ==> w.buf[k] == old(w.buf[k])
    ensures w.Valid() && Room(w, room - lens[s]) && w.Stream() == old(w.Stream()) + Canonical.CodeBits(lens, s)
  {
    hide Canonical.CodeBits, ToBits, Pow2;
    Send(w, codes[s], lens[s], room);
  }

  /** What a pair in the symbol buffer stands for. */
  function TokenOf(dist: nat, lc: byte): Token {
    if dist == 0 then Literal(lc) else Match(lc + 3, dist)
  }

  lemma {:induction false} ExtraFields(length: nat, dist: nat)
    requires 3 <= length <= 258 && 1 <= dist <= 32768
    ensures var c := LenCode(length - 3);
            length - 3 >= R.LengthBase(c) - 3 >= 0 && length - R.LengthBase(c) < Pow2(R.LengthExtra(c))
                && R.LengthExtra(c) <= 5 &&
            LengthExtraBits(length) == ToBits(length - R.LengthBase(c), R.LengthExtra(c))
    ensures var c := DistCode(dist - 1);
            dist - 1 >= R.DistBase(c) - 1 >= 0 && dist - R.DistBase(c) < Pow2(R.DistExtra(c)) && R.DistExtra(c) <= 13 &&
            DistExtraBits(dist) == ToBits(dist - R.DistBase(c), R.DistExtra(c))
  {
    hide R.LengthBase, R.LengthExtra, R.DistBase, R.DistExtra, Pow2, LenCode, DistCode, ToBits;
    LenCodeHolds(length - 3);
    DistCodeHolds(dist - 1);
    R.LengthBound(LenCode(length - 3));
    R.DistBound(DistCode(dist - 1));
    LengthBaseLow(LenCode(length - 3));
  }

  lemma {:induction false} LengthBaseLow(c: nat)
    requires c < 29
    ensures R.LengthBase(c) >= 3
  {
  }

  /** Extra bits, when there are any. */
  method SendExtra(w: Writer, v: nat, extra: nat, ghost room: nat)
    requires w.Valid() && Room(w, room) && extra <= room && extra <= 16 && v < Pow2(extra)
    modifies w.buf, w`pending, w`bi_buf, w`bi_valid
    ensures old(w.pending) <= w.pending && forall k :: w.pending <= k < w.buf.Length ==> w.buf[k] == old(w.buf[k])
    ensures w.Valid() && Room(w, room - extra) && w.Stream() == old(w.Stream()) + ToBits(v, extra)
  {
    hide Writer.Stream, Pow2;
    NoField();
    if extra != 0 { Send(w, v, extra, room); }
  }

  /** a and then b: concatenation, by a name that can be hidden. */
  ghost function Cat(a: seq<bool>, b: seq<bool>): seq<bool> {
    a + b
  }

  lemma {:induction false} Joined(s: seq<bool>, a: seq<bool>, b: seq<bool>)
    ensures s + a + b == s + (a + b)
  {
  }

  /** The two parts of a length, as they are sent. */
  lemma {:induction false} LengthParts(ll: seq<nat>, t: Token, code: nat, v: int)
    requires t.Match? && TokenOk(t) && Canonical.Used(ll, LengthSymbol(t)) && code == LenCode(t.length - 3)
        && v == t.length - R.LengthBase(code)
    ensures Canonical.Used(ll, 257 + code) && 0 <= v < Pow2(R.LengthExtra(code)) && R.LengthExtra(code) <= 5
    ensures LengthBits(ll, t) == Canonical.CodeBits(ll, 257 + code) + ToBits(v, R.LengthExtra(code))
    ensures |LengthBits(ll, t)| == ll[257 + code] + R.LengthExtra(code)
  {
    hide Canonical.CodeBits, ToBits, Pow2, R.LengthBase, R.LengthExtra, LenCode, LengthExtraBits, R.DistBase,
         R.DistExtra;
    ExtraFields(t.length, t.dist);
  }

  lemma {:induction false} DistParts(dl: seq<nat>, t: Token, code: nat, v: int)
    requires t.Match? && TokenOk(t) && Canonical.Used(dl, DistSymbol(t)) && code == DistCode(t.dist - 1)
        && v == t.dist - R.DistBase(code)
    ensures Canonical.Used(dl, code) && 0 <= v < Pow2(R.DistExtra(code)) && R.DistExtra(code) <= 13
    ensures DistBits(dl, t) == Canonical.CodeBits(dl, code) + ToBits(v, R.DistExtra(code))
    ensures |DistBits(dl, t)| == dl[code] + R.DistExtra(code)
  {
    hide Canonical.CodeBits, ToBits, Pow2, R.LengthBase, R.LengthExtra, DistCode, DistExtraBits, R.DistBase,
         R.DistExtra;
    ExtraFields(t.length, t.dist);
  }

  method SendLength(w: Writer, codes: seq<nat>, ll: seq<nat>, lc: nat, ghost t: Token, ghost room: nat)
    requires w.Valid() && Room(w, room) && CodesOk(codes, ll) && t.Match? && t.length == lc + 3 && TokenOk(t)
    requires Canonical.Used(ll, LengthSymbol(t)) && |LengthBits(ll, t)| <= room
    modifies w.buf, w`pending, w`bi_buf, w`bi_valid
    ensures old(w.pending) <= w.pending && forall k :: w.pending <= k < w.buf.Length ==> w.buf[k] == old(w.buf[k])
    ensures w.Valid() && Room(w, room - |LengthBits(ll, t)|) && w.Stream() == old(w.Stream()) + LengthBits(ll, t)
  {
    hide Canonical.CodeBits, ToBits, Pow2, R.LengthBase, R.LengthExtra, LenCode, LengthBits, LengthSymbol, CodesOk,
         Writer.Stream;
    var code := LenCode(lc);
    var v := lc - (R.LengthBase(code) - 3);
    LengthParts(ll, t, code, v);
    ghost var s, b := w.Stream(), Canonical.CodeBits(ll, 257 + code);
    SendCode(w, codes, ll, code + 257, room);
    SendExtra(w, v, R.LengthExtra(code), room - |b|);
    Joined(s, b, ToBits(v, R.LengthExtra(code)));
  }

  lemma {:induction false} NoField()
    ensures forall v: nat :: ToBits(v, 0) == []
  {
  }

  method SendDist(w: Writer, codes: seq<nat>, dl: seq<nat>, dist0: nat, ghost t: Token, ghost room: nat)
    requires w.Valid() && Room(w, room) && CodesOk(codes, dl) && t.Match? && t.dist == dist0 && TokenOk(t)
    requires Canonical.Used(dl, DistSymbol(t)) && |DistBits(dl, t)| <= room
    modifies w.buf, w`pending, w`bi_buf, w`bi_valid
    ensures old(w.pending) <= w.pending && forall k :: w.pending <= k < w.buf.Length ==> w.buf[k] == old(w.buf[k])
    ensures w.Valid() && Room(w, room - |DistBits(dl, t)|) && w.Stream() == old(w.Stream()) + DistBits(dl, t)
  {
    hide Canonical.CodeBits, ToBits, Pow2, R.DistBase, R.DistExtra, DistCode, DistBits, DistSymbol, CodesOk,
         Writer.Stream;
    var dist := dist0 - 1;
    var code := DistCode(dist);
    var v := dist - (R.DistBase(code) - 1);
    DistParts(dl, t, code, v);
    ghost var s, b := w.Stream(), Canonical.CodeBits(dl, code);
    SendCode(w, codes, dl, code, room);
    SendExtra(w, v, R.DistExtra(code), room - |b|);
    Joined(s, b, ToBits(v, R.DistExtra(code)));
  }

  method SendToken(w: Writer, lcodes: seq<nat>, ll: seq<nat>, dcodes: seq<nat>, dl: seq<nat>, dist: nat, lc: byte,
      ghost room: nat)
    requires w.Valid() && Room(w, room) && CodesOk(lcodes, ll) && CodesOk(dcodes, dl)
    requires Sendable(ll, dl, TokenOf(dist, lc)) && |TokenBits(ll, dl, TokenOf(dist, lc))| <= room
    modifies w.buf, w`pending, w`bi_buf, w`bi_valid
    ensures old(w.pending) <= w.pending && forall k :: w.pending <= k < w.buf.Length ==> w.buf[k] == old(w.buf[k])
    ensures w.Valid() && Room(w, room - |TokenBits(ll, dl, TokenOf(dist, lc))|)
    ensures w.Stream() == old(w.Stream()) + TokenBits(ll, dl, TokenOf(dist, lc))
  {
    hide Canonical.CodeBits, CodesOk, Writer.Stream, LengthExtraBits, DistExtraBits, DistBits;
    ghost var t, s := TokenOf(dist, lc), w.Stream();
    if dist == 0 {
      SendCode(w, lcodes, ll, lc, room);
      LiteralBits(ll, dl, t);
    } else {
      hide LengthBits;
      SendLength(w, lcodes, ll, lc, t, room);
      SendDist(w, dcodes, dl, dist, t, room - |LengthBits(ll, t)|);
      Joined(s, LengthBits(ll, t), DistBits(dl, t));
    }
  }

  lemma {:induction false} LiteralBits(ll: seq<nat>, dl: seq<nat>, t: Token)
    requires t.Literal? && Sendable(ll, dl, t)
    ensures TokenBits(ll, dl, t) == Canonical.CodeBits(ll, t.b)
  {
    assert Canonical.CodeBits(ll, t.b) + [] + [] == Canonical.CodeBits(ll, t.b);
  }

  // ---- sending the tokens ----

  /** The buffered symbols, three bytes each, are the tokens ts. */
  ghost predicate Buffered(sym: seq<byte>, next: nat, ts: seq<Token>) {
    && next == 3 * |ts| && next <= |sym|
    && forall k: nat :: k < |ts| ==> BufferedAt(sym, ts, k)
  }

  ghost predicate BufferedAt(sym: seq<byte>, ts: seq<Token>, k: nat)
    requires k < |ts| && 3 * |ts| <= |sym|
  {
    var lo: nat := sym[3 * k];
    var hi: nat := sym[3 * k + 1];
    TokenOk(ts[k]) && ts[k] == TokenOf(lo + 256 * hi, sym[3 * k + 2])
  }

  lemma {:induction false} TokensStep(ll: seq<nat>, dl: seq<nat>, ts: seq<Token>, k: nat)
    requires AllSendable(ll, dl, ts) && k < |ts|
    ensures AllSendable(ll, dl, ts[..k]) && AllSendable(ll, dl, ts[..k + 1]) && Sendable(ll, dl, ts[k])
    ensures TokensBits(ll, dl, ts[..k + 1]) == TokensBits(ll, dl, ts[..k]) + TokenBits(ll, dl, ts[k])
    ensures |TokensBits(ll, dl, ts[..k])| + |TokenBits(ll, dl, ts[k])| <= |TokensBits(ll, dl, ts)|
  {
    hide TokenBits, Sendable;
    assert ts[..k + 1][..k] == ts[..k];
    TokensMono(ll, dl, ts, k + 1);
  }

  lemma {:induction false} TokensMono(ll: seq<nat>, dl: seq<nat>, ts: seq<Token>, k: nat)
    requires AllSendable(ll, dl, ts) && k <= |ts|
    ensures AllSendable(ll, dl, ts[..k]) && |TokensBits(ll, dl, ts[..k])| <= |TokensBits(ll, dl, ts)|
    decreases |ts|
  {
    hide TokenBits, Sendable;
    if k < |ts| {
      var n := |ts| - 1;
      TokensMono(ll, dl, ts[..n], k);
      assert ts[..n][..k] == ts[..k];
    } else {
      assert ts[..k] == ts;
    }
  }

  /** compress_block: the tokens, in the given codes, and the end of the block. */
  method CompressBlock(w: Writer, sym_buf: array<byte>, sym_next: nat, ghost ts: seq<Token>,
                       lcodes: seq<nat>, ll: seq<nat>, dcodes: seq<nat>, dl: seq<nat>, ghost room: nat)
    requires w.Valid() && Room(w, room) && sym_buf != w.buf && Buffered(sym_buf[..], sym_next, ts)
    requires CodesOk(lcodes, ll) && CodesOk(dcodes, dl) && AllSendable(ll, dl, ts) && Canonical.Used(ll, 256)
    requires |BodyBits(ll, dl, ts)| <= room
    modifies w.buf, w`pending, w`bi_buf, w`bi_valid
    ensures w.Valid() && Room(w, room - |BodyBits(ll, dl, ts)|)
    ensures w.Stream() == old(w.Stream()) + BodyBits(ll, dl, ts)
  {
    hide Canonical.CodeBits, CodesOk, Writer.Stream, TokenBits, TokensBits, AllSendable, Sendable, TokenOf;
    ghost var s0, k := w.Stream(), 0;
    NoTokens(ll, dl, ts, s0);
    var sx := 0;
    if sym_next != 0 {
      while sx < sym_next
        invariant sx == 3 * k && k <= |ts| && AllSendable(ll, dl, ts[..k])
        invariant w.Valid() && |TokensBits(ll, dl, ts[..k])| + ll[256] <= room
            && Room(w, room - |TokensBits(ll, dl, ts[..k])|)
        invariant w.Stream() == s0 + TokensBits(ll, dl, ts[..k])
      {
        assert BufferedAt(sym_buf[..], ts, k);
        TokensStep(ll, dl, ts, k);
        var lo: nat, hi: nat := sym_buf[sx], sym_buf[sx + 1];
        var dist := lo + 256 * hi;
        var lc := sym_buf[sx + 2];
        sx := sx + 3;
        Joined(s0, TokensBits(ll, dl, ts[..k]), TokenBits(ll, dl, ts[k]));
        SendToken(w, lcodes, ll, dcodes, dl, dist, lc, room - |TokensBits(ll, dl, ts[..k])|);
        k := k + 1;
      }
    }
    assert ts[..k] == ts;
    Joined(s0, TokensBits(ll, dl, ts), Canonical.CodeBits(ll, 256));
    SendCode(w, lcodes, ll, 256, room - |TokensBits(ll, dl, ts)|);
  }

  lemma {:induction false} NoTokens(ll: seq<nat>, dl: seq<nat>, ts: seq<Token>, s: seq<bool>)
    ensures AllSendable(ll, dl, ts[..0]) && TokensBits(ll, dl, ts[..0]) == [] && s + TokensBits(ll, dl, ts[..0]) == s
  {
  }

  // ---- scanning and sending a tree ----

  lemma {:induction false} BumpOne(f: seq<nat>, ops: seq<CL.Op>, op: CL.Op)
    ensures BumpOps(f, ops + [op]) == Bump(BumpOps(f, ops), CL.OpSymbol(op))
  {
    assert (ops + [op])[..|ops|] == ops;
  }

  lemma {:induction false} BumpOnes(f: seq<nat>, ops: seq<CL.Op>, k: nat, v: nat)
    requires v < |f|
    ensures BumpOps(f, ops + CL.Ones(k, v)) == BumpOps(f, ops)[v := BumpOps(f, ops)[v] + k]
  {
    hide BumpOps;
    if k == 0 {
      assert ops + CL.Ones(0, v) == ops;
    } else {
      BumpOnes(f, ops, k - 1, v);
      var some := ops + CL.Ones(k - 1, v);
      OneMoreOne(ops, k, v);
      BumpOne(f, some, CL.One(v));
      hide CL.Ones;
      var g := BumpOps(f, ops);
      assert BumpOps(f, some + [CL.One(v)]) == g[v := g[v] + (k - 1)][v := g[v] + k];
    }
  }

  lemma {:induction false} OneMoreOne(ops: seq<CL.Op>, k: nat, v: nat)
    requires k > 0
    ensures ops + CL.Ones(k, v) == ops + CL.Ones(k - 1, v) + [CL.One(v)]
  {
  }

  lemma {:induction false} BumpAll(f: seq<nat>, a: seq<CL.Op>, b: seq<CL.Op>)
    ensures BumpOps(f, a + b) == BumpOps(BumpOps(f, a), b)
    decreases |b|
  {
    if b == [] {
      assert a + b == a;
    } else {
      var n := |b| - 1;
      BumpAll(f, a, b[..n]);
      assert a + b == a + b[..n] + [b[n]];
      BumpOne(f, a + b[..n], b[n]);
    }
  }

  /** Count the symbols of a run. */
  method CountRun(bl: Tree, curlen: nat, prevlen: int, count: nat, minCount: nat, ghost f: seq<nat>,
      ghost ops: seq<CL.Op>)
    requires bl.Shape() && bl.kind == BLTREE && curlen <= 15 && count >= 1 && |f| == bl.fc.Length
        && bl.fc[..] == BumpOps(f, ops)
    modifies bl.fc
    ensures bl.fc[..] == BumpOps(f, ops + CL.RunOps(curlen, prevlen, count, minCount))
  {
    hide BumpOps;
    if count < minCount {
      BumpOnes(f, ops, count, curlen);
      bl.fc[curlen] := bl.fc[curlen] + count;
    } else if curlen != 0 {
      if curlen != prevlen {
        BumpOne(f, ops, CL.One(curlen));
        BumpOne(f, ops + [CL.One(curlen)], CL.Repeat(count - 1));
        assert ops + CL.RunOps(curlen, prevlen, count, minCount) == ops + [CL.One(curlen)] + [CL.Repeat(count - 1)];
        bl.fc[curlen] := bl.fc[curlen] + 1;
      } else {
        BumpOne(f, ops, CL.Repeat(count));
      }
      bl.fc[16] := bl.fc[16] + 1;
    } else if count <= 10 {
      BumpOne(f, ops, CL.ZerosShort(count));
      bl.fc[17] := bl.fc[17] + 1;
    } else {
      BumpOne(f, ops, CL.ZerosLong(count));
      bl.fc[18] := bl.fc[18] + 1;
    }
  }

  /** scan_tree: count the symbols that the tree will be sent as. */
  method ScanTree(t: Tree, bl: Tree, max_code: nat)
    requires t.Shape() && bl.Shape() && bl.kind == BLTREE && t.dl != bl.fc && max_code + 1 < t.dl.Length
    requires Canonical.LensOk(t.dl[..max_code + 1])
    modifies t.dl, bl.fc
    ensures t.dl[..] == old(t.dl[..])[max_code + 1 := 0xffff]
    ensures bl.fc[..] == BumpOps(old(bl.fc[..]), CL.TreeOps(old(t.dl[..max_code + 1])))
  {
    hide BumpOps, CL.RunOps;
    ghost var lens, f := t.dl[..max_code + 1], bl.fc[..];
    var prevlen: int, nextlen: nat, count: nat, max_count: nat, min_count: nat := -1, t.dl[0], 0, 7, 4;
    if nextlen == 0 { max_count, min_count := 138, 3; }
    t.dl[max_code + 1] := 0xffff;
    NoOps(f);
    for n := 0 to max_code + 1
      invariant t.dl[..] == old(t.dl[..])[max_code + 1 := 0xffff] && nextlen == t.dl[n]
          && lens == old(t.dl[..max_code + 1])
      invariant CL.ScanTo(lens, n) == CL.Scan(CL.ScanTo(lens, n).ops, prevlen, count, max_count, min_count)
      invariant bl.fc[..] == BumpOps(f, CL.ScanTo(lens, n).ops)
    {
      var curlen := nextlen;
      nextlen := t.dl[n + 1];
      ScanStep(lens, n);
      count := count + 1;
      if count < max_count && curlen == nextlen { continue; }
      CountRun(bl, curlen, prevlen, count, min_count, f, CL.ScanTo(lens, n).ops);
      count, prevlen := 0, curlen;
      if nextlen == 0 {
        max_count, min_count := 138, 3;
      } else if curlen == nextlen {
        max_count, min_count := 6, 3;
      } else {
        max_count, min_count := 7, 4;
      }
    }
  }

  lemma {:induction false} NoOps(f: seq<nat>)
    ensures BumpOps(f, []) == f
  {
  }

  lemma {:induction false} ScanStep(lens: seq<nat>, n: nat)
    requires n < |lens|
    ensures CL.ScanTo(lens, n + 1) == CL.ScanNext(CL.ScanTo(lens, n), lens[n], CL.NextLen(lens, n))
  {
  }

  lemma {:induction false} OpsStep(bl: seq<nat>, ops: seq<CL.Op>, op: CL.Op)
    requires CL.Sendable(bl, ops) && CL.OpOk(op) && Canonical.Used(bl, CL.OpSymbol(op))
    ensures CL.Sendable(bl, ops + [op]) && CL.OpsBits(bl, ops + [op]) == CL.OpsBits(bl, ops) + CL.OpBits(bl, op)
  {
    assert (ops + [op])[..|ops|] == ops;
  }

  lemma {:induction false} OpParts(bl: seq<nat>, op: CL.Op)
    requires CL.OpOk(op) && Canonical.Used(bl, CL.OpSymbol(op))
    ensures CL.OpBits(bl, op) == Canonical.CodeBits(bl, CL.OpSymbol(op)) + ToBits(CL.OpExtra(op).0, CL.OpExtra(op).1)
    ensures |CL.OpBits(bl, op)| == bl[CL.OpSymbol(op)] + CL.OpExtra(op).1
    ensures op.One? ==> CL.OpExtra(op) == (0, 0)
    ensures op.Repeat? ==> CL.OpExtra(op) == (op.k - 3, 2)
    ensures op.ZerosShort? ==> CL.OpExtra(op) == (op.k - 3, 3)
    ensures op.ZerosLong? ==> CL.OpExtra(op) == (op.k - 11, 7)
  {
  }

  /** One symbol of the code length code, and its extra bits. */
  method SendOp(w: Writer, codes: seq<nat>, bl: seq<nat>, s: nat, v: nat, extra: nat, ghost op: CL.Op, ghost room: nat)
    requires w.Valid() && Room(w, room) && CodesOk(codes, bl) && CL.OpOk(op) && Canonical.Used(bl, CL.OpSymbol(op))
    requires s == CL.OpSymbol(op) && (v, extra) == CL.OpExtra(op) && |CL.OpBits(bl, op)| <= room
    modifies w.buf, w`pending, w`bi_buf, w`bi_valid
    ensures w.Valid() && Room(w, room - |CL.OpBits(bl, op)|) && w.Stream() == old(w.Stream()) + CL.OpBits(bl, op)
  {
    hide Canonical.CodeBits, ToBits, Pow2, CodesOk, Writer.Stream, CL.OpBits, CL.OpExtra, CL.OpSymbol;
    OpParts(bl, op);
    ghost var b := Canonical.CodeBits(bl, s);
    Joined(w.Stream(), b, ToBits(v, extra));
    SendCode(w, codes, bl, s, room);
    SendExtra(w, v, extra, room - |b|);
  }

  /** The writer has sent the operations ops since it had sent s0. */
  ghost predicate SentOps(w: Writer, s0: seq<bool>, bl: seq<nat>, ops: seq<CL.Op>, room: nat)
    reads w, w.buf
  {
    w.Valid() && CL.Sendable(bl, ops) && |CL.OpsBits(bl, ops)| <= room && Room(w, room - |CL.OpsBits(bl, ops)|)
    && w.Stream() == s0 + CL.OpsBits(bl, ops)
  }

  method SendNext(w: Writer, codes: seq<nat>, bl: seq<nat>, s: nat, v: nat, extra: nat, ghost op: CL.Op,
                  ghost s0: seq<bool>, ghost ops: seq<CL.Op>, ghost room: nat)
    requires SentOps(w, s0, bl, ops, room) && CodesOk(codes, bl) && CL.OpOk(op) && Canonical.Used(bl, CL.OpSymbol(op))
    requires s == CL.OpSymbol(op) && (v, extra) == CL.OpExtra(op) && |CL.OpsBits(bl, ops)| + |CL.OpBits(bl, op)| <= room
    modifies w.buf, w`pending, w`bi_buf, w`bi_valid
    ensures SentOps(w, s0, bl, ops + [op], room)
  {
    hide CodesOk, Writer.Stream, CL.OpBits, CL.OpExtra, CL.OpSymbol, CL.OpsBits, CL.Sendable, CL.OpOk;
    OpsStep(bl, ops, op);
    Joined(s0, CL.OpsBits(bl, ops), CL.OpBits(bl, op));
    SendOp(w, codes, bl, s, v, extra, op, room - |CL.OpsBits(bl, ops)|);
  }

  /** What is sent first takes no more than all. */
  lemma {:induction false} OpsMono(bl: seq<nat>, some: seq<CL.Op>, ops: seq<CL.Op>)
    requires CL.Sendable(bl, ops) && some <= ops
    ensures CL.Sendable(bl, some) && |CL.OpsBits(bl, some)| <= |CL.OpsBits(bl, ops)|
    decreases |ops|
  {
    hide CL.OpBits, CL.OpOk, CL.OpSymbol;
    if some != ops {
      OpsMono(bl, some, ops[..|ops| - 1]);
    }
  }

  lemma {:induction false} NextOp(bl: seq<nat>, some: seq<CL.Op>, op: CL.Op, ops: seq<CL.Op>)
    requires CL.Sendable(bl, ops) && some + [op] <= ops
    ensures CL.OpOk(op) && Canonical.Used(bl, CL.OpSymbol(op)) && CL.Sendable(bl, some)
    ensures |CL.OpsBits(bl, some)| + |CL.OpBits(bl, op)| <= |CL.OpsBits(bl, ops)|
  {
    hide CL.OpBits, CL.OpsBits;
    OpsMono(bl, some + [op], ops);
    OpsMono(bl, some, ops);
    assert op == ops[|some|];
    OpsStep(bl, some, op);
  }

  lemma {:induction false} ScanPrefix(lens: seq<nat>, n: nat, m: nat)
    requires n <= m <= |lens|
    ensures CL.ScanTo(lens, n).ops <= CL.ScanTo(lens, m).ops
    decreases m
  {
    hide CL.RunOps;
    if n < m { ScanPrefix(lens, n, m - 1); }
  }

  /** Send a run. */
  method SendRun(w: Writer, codes: seq<nat>, bl: seq<nat>, curlen: nat, prevlen: int, count0: nat, minCount: nat,
                 ghost s0: seq<bool>, ghost ops: seq<CL.Op>, ghost all: seq<CL.Op>, ghost room: nat)
    requires SentOps(w, s0, bl, ops, room) && CodesOk(codes, bl) && count0 >= 1 && CL.Sendable(bl, all)
        && |CL.OpsBits(bl, all)| <= room
    requires ops + CL.RunOps(curlen, prevlen, count0, minCount) <= all
    modifies w.buf, w`pending, w`bi_buf, w`bi_valid
    ensures SentOps(w, s0, bl, ops + CL.RunOps(curlen, prevlen, count0, minCount), room)
  {
    hide CodesOk, SentOps, CL.OpBits, CL.OpExtra, CL.OpsBits, CL.Sendable, CL.OpOk;
    OpExtras();
    var count := count0;
    if count < minCount {
      SendOnes(w, codes, bl, curlen, count, s0, ops, all, room);
    } else if curlen != 0 {
      ghost var o := ops;
      if curlen != prevlen {
        assert o + [CL.One(curlen)] + [CL.Repeat(count - 1)] <= all;
        NextOp(bl, o, CL.One(curlen), all);
        RunRange(CL.One(curlen));
        SendNext(w, codes, bl, curlen, 0, 0, CL.One(curlen), s0, o, room);
        o := o + [CL.One(curlen)];
        count := count - 1;
      }
      NextOp(bl, o, CL.Repeat(count), all);
      RunRange(CL.Repeat(count));
      SendNext(w, codes, bl, 16, count - 3, 2, CL.Repeat(count), s0, o, room);
      assert o + [CL.Repeat(count)] == ops + CL.RunOps(curlen, prevlen, count0, minCount);
    } else if count <= 10 {
      NextOp(bl, ops, CL.ZerosShort(count), all);
      RunRange(CL.ZerosShort(count));
      SendNext(w, codes, bl, 17, count - 3, 3, CL.ZerosShort(count), s0, ops, room);
    } else {
      NextOp(bl, ops, CL.ZerosLong(count), all);
      RunRange(CL.ZerosLong(count));
      SendNext(w, codes, bl, 18, count - 11, 7, CL.ZerosLong(count), s0, ops, room);
    }
  }

  lemma {:induction false} RunRange(op: CL.Op)
    requires CL.OpOk(op)
    ensures match op
            case One(v) => v <= 15
            case Repeat(k) => 3 <= k <= 6
            case ZerosShort(k) => 3 <= k <= 10
            case ZerosLong(k) => 11 <= k <= 138
  {
  }

  lemma {:induction false} OpExtras()
    ensures forall v: nat :: v <= 15 ==> CL.OpExtra(CL.One(v)) == (0, 0)
    ensures forall k: nat :: 3 <= k <= 6 ==> CL.OpExtra(CL.Repeat(k)) == (k - 3, 2)
    ensures forall k: nat :: 3 <= k <= 10 ==> CL.OpExtra(CL.ZerosShort(k)) == (k - 3, 3)
    ensures forall k: nat :: 11 <= k <= 138 ==> CL.OpExtra(CL.ZerosLong(k)) == (k - 11, 7)
  {
  }

  method SendOnes(w: Writer, codes: seq<nat>, bl: seq<nat>, curlen: nat, count: nat,
                  ghost s0: seq<bool>, ghost ops: seq<CL.Op>, ghost all: seq<CL.Op>, ghost room: nat)
    requires SentOps(w, s0, bl, ops, room) && CodesOk(codes, bl) && CL.Sendable(bl, all)
        && |CL.OpsBits(bl, all)| <= room
    requires ops + CL.Ones(count, curlen) <= all
    modifies w.buf, w`pending, w`bi_buf, w`bi_valid
    ensures SentOps(w, s0, bl, ops + CL.Ones(count, curlen), room)
  {
    hide CodesOk, SentOps, CL.OpBits, CL.OpExtra, CL.OpsBits, CL.Sendable;
    OpExtras();
    assert ops + CL.Ones(0, curlen) == ops;
    for k := 0 to count
      invariant SentOps(w, s0, bl, ops + CL.Ones(k, curlen), room)
    {
      ghost var o := ops + CL.Ones(k, curlen);
      assert ops + CL.Ones(k + 1, curlen) == o + [CL.One(curlen)];
      assert CL.Ones(k + 1, curlen) == CL.Ones(count, curlen)[..k + 1];
      NextOp(bl, o, CL.One(curlen), all);
      SendNext(w, codes, bl, curlen, 0, 0, CL.One(curlen), s0, o, room);
    }
  }

  /** send_tree: the lengths of a tree, run-length coded. The guard behind them is still there
      from scan_tree. */
  method SendTree(w: Writer, tree: seq<nat>, max_code: nat, codes: seq<nat>, bl: seq<nat>, ghost room: nat)
    requires w.Valid() && Room(w, room) && max_code + 1 < |tree| && tree[max_code + 1] == 0xffff
    requires CodesOk(codes, bl) && CL.Sendable(bl, CL.TreeOps(tree[..max_code + 1]))
        && |CL.OpsBits(bl, CL.TreeOps(tree[..max_code + 1]))| <= room
    modifies w.buf, w`pending, w`bi_buf, w`bi_valid
    ensures w.Valid() && Room(w, room - |CL.OpsBits(bl, CL.TreeOps(tree[..max_code + 1]))|)
    ensures w.Stream() == old(w.Stream()) + CL.OpsBits(bl, CL.TreeOps(tree[..max_code + 1]))
  {
    hide CodesOk, CL.OpsBits, CL.Sendable, CL.RunOps, Writer.Stream;
    ghost var lens, s0 := tree[..max_code + 1], w.Stream();
    ghost var all := CL.TreeOps(lens);
    var prevlen: int, nextlen: nat, count: nat, max_count: nat, min_count: nat := -1, tree[0], 0, 7, 4;
    if nextlen == 0 { max_count, min_count := 138, 3; }
    SentNothing(w, s0, bl, room);
    for n := 0 to max_code + 1
      invariant nextlen == tree[n]
      invariant CL.ScanTo(lens, n) == CL.Scan(CL.ScanTo(lens, n).ops, prevlen, count, max_count, min_count)
      invariant SentOps(w, s0, bl, CL.ScanTo(lens, n).ops, room)
    {
      hide SentOps, Canonical.Kraft, Canonical.Count, Canonical.FirstCode, Canonical.Counts, ToBits, Pow2;
      var curlen := nextlen;
      nextlen := tree[n + 1];
      ScanStep(lens, n);
      ScanPrefix(lens, n + 1, |lens|);
      count := count + 1;
      if count < max_count && curlen == nextlen { continue; }
      SendRun(w, codes, bl, curlen, prevlen, count, min_count, s0, CL.ScanTo(lens, n).ops, all, room);
      count, prevlen := 0, curlen;
      if nextlen == 0 {
        max_count, min_count := 138, 3;
      } else if curlen == nextlen {
        max_count, min_count := 6, 3;
      } else {
        max_count, min_count := 7, 4;
      }
    }
  }

  lemma {:induction false} SentNothing(w: Writer, s0: seq<bool>, bl: seq<nat>, room: nat)
    requires w.Valid() && Room(w, room) && w.Stream() == s0
    ensures SentOps(w, s0, bl, [], room)
  {
    hide Writer.Stream;
    assert s0 + [] == s0;
  }

  // ---- the code length code ----

  /** The lengths of a tree do not change when zeros are put behind them. */
  lemma {:induction false} TrailingZeros(lens: seq<nat>, k: nat)
    ensures Canonical.Counts(lens + R.Fill(k, 0))[1..] == Canonical.Counts(lens)[1..]
    ensures forall s: nat, l: nat :: s <= |lens| ==>
        Canonical.Count((lens + R.Fill(k, 0))[..s], l) == Canonical.Count(lens[..s], l)
  {
    forall l: nat | 1 <= l <= 15 ensures Canonical.Count(lens + R.Fill(k, 0), l) == Canonical.Count(lens, l) {
      Canonical.CountConcat(lens, R.Fill(k, 0), l);
      R.CountFill(k, 0, l);
    }
    forall s: nat, l: nat | s <= |lens|
        ensures Canonical.Count((lens + R.Fill(k, 0))[..s], l) == Canonical.Count(lens[..s], l) {
      assert (lens + R.Fill(k, 0))[..s] == lens[..s];
    }
  }

  lemma {:induction false} SameFirst(c: seq<nat>, e: seq<nat>, l: nat)
    requires |c| == 16 == |e| && c[1..] == e[1..] && l <= 15
    ensures Canonical.Kraft(c, l) == Canonical.Kraft(e, l) && Canonical.FirstCode(c, l) == Canonical.FirstCode(e, l)
    decreases l
  {
    if l > 0 {
      SameFirst(c, e, l - 1);
      assert c[l] == c[1..][l - 1] == e[l];
      if l > 1 { assert c[l - 1] == c[1..][l - 2] == e[l - 1]; }
    }
  }

  /** So the code is the same, too. */
  lemma {:induction false} PaddedCode(lens: seq<nat>, k: nat, codes: seq<nat>)
    requires Canonical.LensOk(lens) && CodesOk(codes, lens) && |lens| + k <= |codes|
    ensures Canonical.LensOk(lens + R.Fill(k, 0)) && CodesOk(codes, lens + R.Fill(k, 0))
    ensures Canonical.Complete(lens)
        ==> Canonical.Complete(lens + R.Fill(k, 0))
            && R.GoodLengthCode(lens + R.Fill(k, 0))
  {
    var p := lens + R.Fill(k, 0);
    TrailingZeros(lens, k);
    SameFirst(Canonical.Counts(p), Canonical.Counts(lens), 15);
    forall n: nat | n < |p| && p[n] != 0
        ensures codes[n] < Pow2(p[n]) && ToBits(codes[n], p[n]) == Canonical.CodeBits(p, n) {
      SameFirst(Canonical.Counts(p), Canonical.Counts(lens), p[n]);
    }
  }

  lemma {:induction false} BumpGrows(f: seq<nat>, ops: seq<CL.Op>, s: nat)
    requires s < |f|
    ensures BumpOps(f, ops)[s] >= f[s]
    ensures (exists i :: 0 <= i < |ops| && CL.OpSymbol(ops[i]) == s) ==> BumpOps(f, ops)[s] > 0
    decreases |ops|
  {
    hide CL.OpSymbol;
    if ops != [] { BumpGrows(f, ops[..|ops| - 1], s); }
  }

  /** Every symbol that is sent occurs, and so has a code. */
  lemma {:induction false} OpsSendable(ops: seq<CL.Op>, f: seq<nat>, g: seq<nat>, B: set<nat>, dl: seq<nat>)
    requires |f| >= 19 && |g| == |f| && (forall s :: 0 <= s < 19 ==> g[s] >= BumpOps(f, ops)[s])
    requires Occurring(g, 19) <= B && |dl| >= 19 && forall x :: 0 <= x < 19 && x in B ==> 1 <= dl[x] <= 7
    requires forall i :: 0 <= i < |ops| ==> CL.OpOk(ops[i])
    ensures CL.Sendable(dl[..19], ops)
  {
    forall i | 0 <= i < |ops| ensures CL.OpOk(ops[i]) && Canonical.Used(dl[..19], CL.OpSymbol(ops[i])) {
      var s := CL.OpSymbol(ops[i]);
      BumpGrows(f, ops, s);
      InOccurring(g, 19, s);
    }
  }

  lemma {:induction false} InOccurring(f: seq<nat>, n: nat, s: nat)
    requires s < n <= |f|
    ensures s in Occurring(f, n) <==> f[s] != 0
  {
    if s < n - 1 { InOccurring(f, n - 1, s); }
  }

  lemma {:induction false} TreeOpsOk(lens: seq<nat>)
    requires Canonical.LensOk(lens)
    ensures forall i :: 0 <= i < |CL.TreeOps(lens)| ==> CL.OpOk(CL.TreeOps(lens)[i])
  {
    hide CL.TreeOps;
    CL.TreeRoundTrip(lens);
    FitsOk([], CL.TreeOps(lens));
  }

  lemma {:induction false} FitsOk(lens: seq<nat>, ops: seq<CL.Op>)
    requires CL.AllFit(lens, ops)
    ensures forall i :: 0 <= i < |ops| ==> CL.OpOk(ops[i])
    decreases |ops|
  {
    hide CL.OpOk;
    if ops != [] { FitsOk(lens, ops[..|ops| - 1]); }
  }

  /** All arrays are different. */
  ghost predicate Separate(b: Builder, l: Tree, d: Tree, bl: Tree) {
    && b.Apart(l) && b.Apart(d) && b.Apart(bl) && l.kind == LTREE && d.kind == DTREE && bl.kind == BLTREE
    && l.fc != d.fc && l.fc != d.dl && l.dl != d.fc && l.dl != d.dl
    && l.fc != bl.fc && l.fc != bl.dl && l.dl != bl.fc && l.dl != bl.dl
    && d.fc != bl.fc && d.fc != bl.dl && d.dl != bl.fc && d.dl != bl.dl
    && l != d && l != bl && d != bl
  }

  /** The code length code that was built for the two trees can announce them. */
  lemma {:induction false} BlAnnounces(bl: Tree, f0: seq<nat>, f: seq<nat>, B: set<nat>, freq: seq<nat>,
      merges: seq<H.Sons>,
                                       ll: seq<nat>, dl: seq<nat>)
    requires bl.Shape() && bl.kind == BLTREE && |f0| == bl.fc.Length && Built(bl, f, B, freq, merges)
    requires f == BumpOps(f0, CL.TreeOps(ll) + CL.TreeOps(dl)) && Canonical.LensOk(ll) && Canonical.LensOk(dl)
    ensures R.GoodLengthCode(bl.dl[..19]) && CodesOk(bl.fc[..], bl.dl[..19]) && forall i :: 0 <= i < 19 ==>
        bl.dl[..19][i] <= 7
    ensures CL.Sendable(bl.dl[..19], CL.TreeOps(ll)) && CL.Sendable(bl.dl[..19], CL.TreeOps(dl))
  {
    hide GoodLengths, Cheapest, BumpOps, CL.TreeOps, Occurring, Canonical.Complete, CodesOk, CL.Sendable,
         R.GoodLengthCode;
    var bls := bl.dl[..19];
    var n := bl.max_code + 1;
    var a, b := CL.TreeOps(ll), CL.TreeOps(dl);
    PaddedCode(bl.dl[..n], 19 - n, bl.fc[..]);
    assert bls == bl.dl[..n] + R.Fill(19 - n, 0);
    TreeOpsOk(ll);
    TreeOpsOk(dl);
    BumpAll(f0, a, b);
    forall s | 0 <= s < 19 ensures f[s] >= BumpOps(f0, a)[s] { BumpGrows(BumpOps(f0, a), b, s); }
    OpsSendable(a, f0, f, B, bl.dl[..]);
    OpsSendable(b, BumpOps(f0, a), f, B, bl.dl[..]);
  }

  /** What build_tree adds up for the code length tree is what the two trees take. */
  lemma {:induction false} BlCost(w: seq<nat>, f0: seq<nat>, a: seq<CL.Op>, b: seq<CL.Op>)
    requires |w| == |f0| && |w| >= 19 && CL.Sendable(w[..19], a) && CL.Sendable(w[..19], b) && forall s ::
        0 <= s < 19 ==> f0[s] == 0
    ensures DynCost(BLTREE, BumpOps(f0, a + b), w) == |CL.OpsBits(w[..19], a)| + |CL.OpsBits(w[..19], b)|
  {
    hide BumpOps, DynCost, SymbolBits, CL.OpsBits, CL.Sendable;
    BumpAll(f0, a, b);
    DynIsSymbolBits(BLTREE, BumpOps(f0, a + b), w);
    OpsCost(w[..19], a, f0, w);
    OpsCost(w[..19], b, BumpOps(f0, a), w);
    NoSymbols(BLTREE, f0, w);
  }

  /** The header of a dynamic block can be sent. */
  ghost predicate BlReady(l: Tree, d: Tree, bl: Tree, max_blindex: nat)
    requires l.Shape() && d.Shape() && bl.Shape() && bl.kind == BLTREE && l.kind == LTREE && d.kind == DTREE
    reads l.dl, d.dl, bl.dl, bl.fc, l`max_code, d`max_code
  {
    && 256 <= l.max_code < 286 && 0 <= d.max_code < 30 && max_blindex < 19
    && CL.Announced(l.dl[..l.max_code + 1], d.dl[..d.max_code + 1], bl.dl[..19], max_blindex + 1)
    && CodesOk(bl.fc[..], bl.dl[..19]) && l.dl[l.max_code + 1] == 0xffff && d.dl[d.max_code + 1] == 0xffff
  }

  /** Without a length sent on its own, all lengths would be zero. */
  lemma {:induction false} LengthSent(ops: seq<CL.Op>, s: nat) returns (i: nat)
    requires CL.AllFit([], ops) && s < |CL.UnrollAll([], ops)| && CL.UnrollAll([], ops)[s] != 0
    ensures i < |ops| && ops[i].One?
    decreases |ops|
  {
    var n := |ops| - 1;
    var some := CL.UnrollAll([], ops[..n]);
    if ops[n].One? {
      i := n;
    } else if s < |some| {
      i := LengthSent(ops[..n], s);
    } else {
      i := LengthSent(ops[..n], |some| - 1);
    }
  }

  /** So the code length code has a length beyond the first three places. */
  lemma {:induction false} PlainLength(ll: seq<nat>, bls: seq<nat>) returns (v: nat)
    requires Canonical.LensOk(ll) && |ll| > 256 && ll[256] != 0 && CL.Sendable(bls, CL.TreeOps(ll))
    ensures v < 16 && v < |bls| && bls[v] != 0
  {
    hide CL.TreeOps;
    CL.TreeRoundTrip(ll);
    var i := LengthSent(CL.TreeOps(ll), 256);
    v := CL.TreeOps(ll)[i].len;
  }

  /** Scan both trees. */
  method ScanBoth(b: Builder, l: Tree, d: Tree, bl: Tree)
    requires Separate(b, l, d, bl)
    requires 256 <= l.max_code < 286 && 0 <= d.max_code < 30 && Canonical.LensOk(l.dl[..l.max_code + 1])
        && Canonical.LensOk(d.dl[..d.max_code + 1])
    modifies bl.fc, l.dl, d.dl
    ensures l.dl[..l.max_code + 1] == old(l.dl[..l.max_code + 1])
        && d.dl[..d.max_code + 1] == old(d.dl[..d.max_code + 1])
    ensures l.dl[l.max_code + 1] == 0xffff && d.dl[d.max_code + 1] == 0xffff
    ensures bl.fc[..] == BumpOps(old(bl.fc[..]), CL.TreeOps(l.dl[..l.max_code + 1])
        + CL.TreeOps(d.dl[..d.max_code + 1]))
  {
    hide BumpOps, CL.TreeOps, Canonical.LensOk;
    ghost var ll, dl, f0 := l.dl[..l.max_code + 1], d.dl[..d.max_code + 1], bl.fc[..];
    ScanTree(l, bl, l.max_code);
    ScanTree(d, bl, d.max_code);
    assert l.dl[..l.max_code + 1] == ll && d.dl[..d.max_code + 1] == dl;
    BumpAll(f0, CL.TreeOps(ll), CL.TreeOps(dl));
  }

  /** build_bl_tree: the code length code for the two trees, and what sending them takes. */
  method BuildBlTree(b: Builder, l: Tree, d: Tree, bl: Tree) returns (max_blindex: nat)
    requires Separate(b, l, d, bl) && (forall s :: 0 <= s < 19 ==> bl.fc[s] == 0)
    requires 256 <= l.max_code < 286 && 0 <= d.max_code < 30 && Canonical.LensOk(l.dl[..l.max_code + 1])
        && Canonical.LensOk(d.dl[..d.max_code + 1])
    requires l.dl[256] != 0
    modifies b, b.heap, b.depth, b.bl_count, bl.fc, bl.dl, bl`max_code, l.dl, d.dl
    ensures l.dl[..l.max_code + 1] == old(l.dl[..l.max_code + 1])
        && d.dl[..d.max_code + 1] == old(d.dl[..d.max_code + 1])
    ensures BlReady(l, d, bl, max_blindex)
    ensures b.opt_len == old(b.opt_len)
        + |CL.TreesBits(l.dl[..l.max_code + 1], d.dl[..d.max_code + 1], bl.dl[..19], max_blindex + 1)|
    ensures b.static_len == old(b.static_len)
  {
    hide BumpOps, CL.TreeOps, Occurring, Canonical.Complete, CodesOk, CL.Sendable, CL.OpsBits, R.GoodLengthCode,
         Built, DynCost, SymbolBits,
         Canonical.LensOk, R.Order, CL.TreesBits;
    ghost var ll, dl, f0 := l.dl[..l.max_code + 1], d.dl[..d.max_code + 1], bl.fc[..];
    assert ll[256] != 0;
    ScanBoth(b, l, d, bl);
    ghost var f := bl.fc[..];
    ghost var B, freq, merges;
    B, freq, merges := b.BuildTree(bl);
    BlAnnounces(bl, f0, f, B, freq, merges, ll, dl);
    BlCost(bl.dl[..], f0, CL.TreeOps(ll), CL.TreeOps(dl));
    ghost var v := PlainLength(ll, bl.dl[..19]);
    max_blindex := LastUsed(bl, v);
    b.opt_len := b.opt_len + 3 * (max_blindex + 1) + 5 + 5 + 4;
    TreesSize(ll, dl, bl.dl[..19], max_blindex + 1);
  }

  /** The last length, in transmission order, that has to be sent. */
  method LastUsed(bl: Tree, ghost v: nat) returns (max_blindex: nat)
    requires bl.Shape() && bl.kind == BLTREE && v < 16 && bl.dl[v] != 0
    ensures 3 <= max_blindex < 19 && forall i :: max_blindex < i < 19 ==> bl.dl[R.Order(i)] == 0
  {
    assert 3 <= R.OrderOf(v) < 19 && R.Order(R.OrderOf(v)) == v;
    hide R.Order, R.OrderOf;
    max_blindex := 18;
    while max_blindex >= 3
      invariant R.OrderOf(v) <= max_blindex < 19 && forall i :: max_blindex < i < 19 ==> bl.dl[R.Order(i)] == 0
    {
      if bl.dl[R.Order(max_blindex)] != 0 { break; }
      max_blindex := max_blindex - 1;
    }
  }

  lemma {:induction false} TreesSize(ll: seq<nat>, dl: seq<nat>, bl: seq<nat>, blcodes: nat)
    requires CL.Announced(ll, dl, bl, blcodes)
    ensures |CL.TreesBits(ll, dl, bl, blcodes)| == 14 + 3 * blcodes + |CL.OpsBits(bl, CL.TreeOps(ll))|
        + |CL.OpsBits(bl, CL.TreeOps(dl))|
  {
    hide CL.OpsBits, CL.TreeOps, CL.Sendable, R.GoodLengthCode, Canonical.LensOk;
    FieldsSize(bl, blcodes);
  }

  lemma {:induction false} FieldsSize(bl: seq<nat>, n: nat)
    requires |bl| == 19 && n <= 19
    ensures |CL.LengthFields(bl, n)| == 3 * n
  {
    if n > 0 { FieldsSize(bl, n - 1); }
  }

  // ---- sending the trees ----

  /** The lengths of the code length code, three bits each. */
  method SendFields(w: Writer, bls: seq<nat>, blcodes: nat, ghost room: nat)
    requires w.Valid() && Room(w, room) && |bls| == 19 && blcodes <= 19 && 3 * blcodes <= room
    requires forall i :: 0 <= i < 19 ==> bls[i] <= 7
    modifies w.buf, w`pending, w`bi_buf, w`bi_valid
    ensures w.Valid() && Room(w, room - 3 * blcodes)
        && w.Stream() == Cat(old(w.Stream()), CL.LengthFields(bls, blcodes))
  {
    hide R.Order, ToBits, Writer.Stream;
    ghost var s0 := w.Stream();
    assert Pow2(3) == 8;
    assert s0 + CL.LengthFields(bls, 0) == s0;
    for rank := 0 to blcodes
      invariant w.Valid() && Room(w, room - 3 * rank) && w.Stream() == s0 + CL.LengthFields(bls, rank)
    {
      Joined(s0, CL.LengthFields(bls, rank), ToBits(bls[R.Order(rank)], 3));
      Send(w, bls[R.Order(rank)], 3, room - 3 * rank);
    }
  }

  lemma {:induction false} CountRange(ll: seq<nat>, dl: seq<nat>, bl: seq<nat>, blcodes: nat)
    requires CL.Announced(ll, dl, bl, blcodes)
    ensures 0 <= |ll| - 257 < Pow2(5) && 0 <= |dl| - 1 < Pow2(5) && 0 <= blcodes - 4 < Pow2(4)
    ensures (forall i :: 0 <= i < 19 ==> bl[i] <= 7) && CL.Sendable(bl, CL.TreeOps(ll))
        && CL.Sendable(bl, CL.TreeOps(dl))
  {
    R.SmallPow2();
  }

  function CountBits(lcodes: nat, dcodes: nat, blcodes: nat): seq<bool>
    requires lcodes >= 257 && dcodes >= 1 && blcodes >= 4
  {
    ToBits(lcodes - 257, 5) + ToBits(dcodes - 1, 5) + ToBits(blcodes - 4, 4)
  }

  method SendCounts(w: Writer, lcodes: nat, dcodes: nat, blcodes: nat, ghost room: nat)
    requires w.Valid() && Room(w, room) && room >= 14 && lcodes >= 257 && dcodes >= 1 && blcodes >= 4
    requires lcodes - 257 < Pow2(5) && dcodes - 1 < Pow2(5) && blcodes - 4 < Pow2(4)
    modifies w.buf, w`pending, w`bi_buf, w`bi_valid
    ensures w.Valid() && Room(w, room - 14)
    ensures w.Stream() == Cat(old(w.Stream()), CountBits(lcodes, dcodes, blcodes))
  {
    hide ToBits, Pow2, Writer.Stream;
    ghost var s, a, b, c := w.Stream(), ToBits(lcodes - 257, 5), ToBits(dcodes - 1, 5), ToBits(blcodes - 4, 4);
    Send(w, lcodes - 257, 5, room);
    Send(w, dcodes - 1, 5, room - 5);
    Send(w, blcodes - 4, 4, room - 10);
    Joined(s, a, b);
    Joined(s, a + b, c);
  }

  /** Both trees, run-length coded. */
  method SendBoth(w: Writer, ltree: seq<nat>, dtree: seq<nat>, codes: seq<nat>, bls: seq<nat>, lcodes: nat,
      dcodes: nat, ghost room: nat)
    requires w.Valid() && Room(w, room) && 1 <= lcodes < |ltree| && 1 <= dcodes < |dtree|
    requires ltree[lcodes] == 0xffff && dtree[dcodes] == 0xffff && CodesOk(codes, bls)
    requires CL.Sendable(bls, CL.TreeOps(ltree[..lcodes])) && CL.Sendable(bls, CL.TreeOps(dtree[..dcodes]))
    requires |CL.OpsBits(bls, CL.TreeOps(ltree[..lcodes]))| + |CL.OpsBits(bls, CL.TreeOps(dtree[..dcodes]))| <= room
    modifies w.buf, w`pending, w`bi_buf, w`bi_valid
    ensures w.Valid() && Room(w, room - |CL.OpsBits(bls, CL.TreeOps(ltree[..lcodes]))| - |CL.OpsBits(bls,
        CL.TreeOps(dtree[..dcodes]))|)
    ensures w.Stream() == Cat(Cat(old(w.Stream()), CL.OpsBits(bls, CL.TreeOps(ltree[..lcodes]))),
        CL.OpsBits(bls, CL.TreeOps(dtree[..dcodes])))
  {
    hide CL.OpsBits, CL.TreeOps, CL.Sendable, Writer.Stream, CodesOk;
    SendTree(w, ltree, lcodes - 1, codes, bls, room);
    SendTree(w, dtree, dcodes - 1, codes, bls, room - |CL.OpsBits(bls, CL.TreeOps(ltree[..lcodes]))|);
  }

  /** send_all_trees: the header of a dynamic block, from the lengths of the three trees. */
  method SendAllTrees(w: Writer, ltree: seq<nat>, dtree: seq<nat>, codes: seq<nat>, bls: seq<nat>, lcodes: nat,
      dcodes: nat, blcodes: nat, ghost room: nat)
    requires w.Valid() && Room(w, room) && lcodes < |ltree| && dcodes < |dtree| && ltree[lcodes] == 0xffff
        && dtree[dcodes] == 0xffff
    requires CL.Announced(ltree[..lcodes], dtree[..dcodes], bls, blcodes) && CodesOk(codes, bls)
    requires |CL.TreesBits(ltree[..lcodes], dtree[..dcodes], bls, blcodes)| <= room
    modifies w.buf, w`pending, w`bi_buf, w`bi_valid
    ensures w.Valid() && Room(w, room - |CL.TreesBits(ltree[..lcodes], dtree[..dcodes], bls, blcodes)|)
    ensures w.Stream() == old(w.Stream()) + CL.TreesBits(ltree[..lcodes], dtree[..dcodes], bls, blcodes)
  {
    ghost var ll, dl := ltree[..lcodes], dtree[..dcodes];
    CountRange(ll, dl, bls, blcodes);
    hide CL.OpsBits, CL.TreeOps, CL.Sendable, ToBits, Pow2, Writer.Stream, CL.LengthFields, CL.Announced, CodesOk,
         CL.TreesBits, Room, Writer.Valid,
         Cat, CountBits;
    TreesSize(ll, dl, bls, blcodes);
    TreesParts(w.Stream(), ll, dl, bls, blcodes);
    SendCounts(w, lcodes, dcodes, blcodes, room);
    SendFields(w, bls, blcodes, room - 14);
    SendBoth(w, ltree, dtree, codes, bls, lcodes, dcodes, room - 14 - 3 * blcodes);
  }

  lemma {:induction false} TreesParts(s: seq<bool>, ll: seq<nat>, dl: seq<nat>, bl: seq<nat>, blcodes: nat)
    requires CL.Announced(ll, dl, bl, blcodes)
    ensures |ll| >= 257 && |dl| >= 1 && |bl| == 19 && CL.Sendable(bl, CL.TreeOps(ll)) && CL.Sendable(bl, CL.TreeOps(dl))
    ensures Cat(Cat(Cat(Cat(s, CountBits(|ll|, |dl|, blcodes)), CL.LengthFields(bl, blcodes)),
        CL.OpsBits(bl, CL.TreeOps(ll))), CL.OpsBits(bl, CL.TreeOps(dl)))
            == s + CL.TreesBits(ll, dl, bl, blcodes)
  {
    assert CL.Sendable(bl, CL.TreeOps(ll)) && CL.Sendable(bl, CL.TreeOps(dl));
    assert |ll| >= 257 && |dl| >= 1 && blcodes >= 4 && |bl| == 19 && blcodes <= 19;
    hide CL.OpsBits, CL.TreeOps, CL.Sendable, ToBits, CL.LengthFields, CL.Announced;
    var a, b, c, f, o, p := ToBits(|ll| - 257, 5), ToBits(|dl| - 1, 5), ToBits(blcodes - 4, 4),
        CL.LengthFields(bl, blcodes),
                            CL.OpsBits(bl, CL.TreeOps(ll)), CL.OpsBits(bl, CL.TreeOps(dl));
    Joined(s, a + b + c, f);
    Joined(s, a + b + c + f, o);
    Joined(s, a + b + c + f + o, p);
  }

  // ---- the three forms ----

  /** The header of a stored block, up to a byte boundary. */
  method StoredHead(w: Writer, last: bool)
    requires w.Valid() && w.out == 0 && w.pending + 4 <= w.buf.Length
    modifies w.buf, w`pending, w`bi_buf, w`bi_valid
    ensures w.Valid() && w.pending == old(w.pending) + (old(w.bi_valid) + 10) / 8 && w.bi_valid == 0
    ensures var s1 := Cat(old(w.Stream()), ToBits(Flag(last), 3)); w.Stream() == Cat(s1, Zeros((8 - |s1| % 8) % 8))
  {
    assert Flag(last) < Pow2(3);
    hide ToBits, Pow2, Writer.Stream, Zeros;
    w.SendBits(Flag(last), 3);
    w.Windup();
  }

  /** Its lengths and bytes. */
  method StoredBody(w: Writer, data: seq<byte>)
    requires w.Valid() && |data| <= 0xffff && w.out == 0 && w.bi_valid == 0 && w.pending + |data| + 4 <= w.buf.Length
    modifies w.buf, w`pending
    ensures w.Valid() && w.pending == old(w.pending) + |data| + 4 && w.bi_valid == 0
    ensures w.Stream() == Cat(Cat(Cat(old(w.Stream()), ToBits(|data|, 16)), ToBits(0xffff - |data|, 16)),
        BytesBits(data))
  {
    hide ToBits, Pow2, Writer.Stream, BytesBits;
    Halves(|data|);
    Halves(0xffff - |data|);
    w.PutWord(|data|);
    w.PutWord(0xffff - |data|);
    NoBytes(data, w.Stream());
    if |data| != 0 { w.PutBytes(data); }
  }

  /** _tr_stored_block */
  method StoredBlock(w: Writer, data: seq<byte>, last: bool)
    requires w.Valid() && |data| <= 0xffff && w.out == 0 && w.pending + 4 <= w.buf.Length
    requires w.pending + (w.bi_valid + 42) / 8 + |data| <= w.buf.Length
    modifies w.buf, w`pending, w`bi_buf, w`bi_valid
    ensures w.Valid() && w.Stream() == old(w.Stream()) + BlockBits(Stored(data), last, |old(w.Stream())|)
    ensures w.pending == old(w.pending) + (old(w.bi_valid) + 42) / 8 + |data| && w.bi_valid == 0
  {
    hide ToBits, BytesBits, Pow2, Writer.Stream, BlockBits, Zeros, Cat;
    StoredParts(w.Stream(), data, last);
    StoredHead(w, last);
    StoredBody(w, data);
  }

  lemma {:induction false} NoBytes(data: seq<byte>, s: seq<bool>)
    ensures data == [] ==> s + BytesBits(data) == s
  {
  }

  lemma {:induction false} StoredParts(s: seq<bool>, data: seq<byte>, last: bool)
    requires |data| <= 0xffff
    ensures var s1 := Cat(s, ToBits(Flag(last), 3));
            Cat(Cat(Cat(Cat(s1, Zeros((8 - |s1| % 8) % 8)), ToBits(|data|, 16)), ToBits(0xffff - |data|, 16)),
                BytesBits(data))
            == s + BlockBits(Stored(data), last, |s|)
  {
    hide ToBits, BytesBits, Zeros;
    var a, z, b, c, d := ToBits(Flag(last), 3), Padding(|s| + 3), ToBits(|data|, 16), ToBits(0xffff - |data|, 16),
        BytesBits(data);
    Joined(s, a, z);
    Joined(s, a + z, b);
    Joined(s, a + z + b, c);
    Joined(s, a + z + b + c, d);
  }

  // ---- a block ----

  /** Frequencies of a block: its tokens, and its end. */
  function BlockFreqs(n: nat, ts: seq<Token>): (f: seq<nat>)
    ensures |f| == n
  {
    Bump(LengthFreqs(n, ts), 256)
  }

  ghost predicate SameTo(f: seq<nat>, g: seq<nat>, n: nat) {
    n <= |f| && n <= |g| && forall s :: 0 <= s < n ==> f[s] == g[s]
  }

  // ---- the codes of a block ----

  /** How often the symbols of a block occur. */
  function Freqs(k: Kind, n: nat, ts: seq<Token>): (f: seq<nat>)
    ensures |f| == n
  {
    if k == LTREE then BlockFreqs(n, ts) else DistFreqs(n, ts)
  }

  /** What build_tree has made lengths from: the frequencies, all lengths, the symbols with codes,
      their frequencies with the forced ones, and the merges. */
  datatype Origin = Origin(f0: seq<nat>, l: seq<nat>, B: set<nat>, freq: seq<nat>, merges: seq<H.Sons>)

  ghost predicate TunedBy(k: Kind, ts: seq<Token>, lens: seq<nat>, o: Origin) {
    && |o.f0| == |o.l| == |o.freq| && SameTo(o.f0, Freqs(k, |o.f0|, ts), Elems(k)) && 0 < |lens| <= |o.l|
    && o.l[..|lens|] == lens && CodeLensOk(k, o.B, o.l, |lens| - 1)
    && ForcedOnly(k, Occurring(o.f0, Elems(k)), o.B, o.f0, o.freq)
    && GoodLengths(o.B, o.freq, o.l, MaxLength(k)) && Best(k, o.B, o.freq, o.merges, o.l)
    && (H.Sum(Occurring(o.f0, Elems(k)), o.f0) + 2 < Fib(MaxLength(k) + 3) ==> Cheapest(o.B, o.freq, o.l))
  }

  /** The lengths are Huffman's for the symbols of the block, as far as build_tree promises that. */
  ghost predicate Tuned(k: Kind, ts: seq<Token>, lens: seq<nat>) {
    exists o :: TunedBy(k, ts, lens, o)
  }

  lemma {:induction false} BuiltTuned(t: Tree, ts: seq<Token>, f0: seq<nat>, B: set<nat>, freq: seq<nat>,
      merges: seq<H.Sons>)
    requires t.Shape() && Built(t, f0, B, freq, merges) && SameTo(f0, Freqs(t.kind, |f0|, ts), Elems(t.kind))
    ensures t.max_code >= 0 && Tuned(t.kind, ts, t.dl[..t.max_code + 1])
  {
    hide GoodLengths, Best, Cheapest, Occurring, Fib, H.Sum, ForcedOnly, SameTo, Freqs, CodesOk, Canonical.Complete;
    assert TunedBy(t.kind, ts, t.dl[..t.max_code + 1], Origin(f0, t.dl[..], B, freq, merges));
  }

  lemma {:induction false} BuiltFacts(t: Tree, f0: seq<nat>, B: set<nat>, freq: seq<nat>, merges: seq<H.Sons>)
    requires t.Shape() && Built(t, f0, B, freq, merges)
    ensures CodeLensOk(t.kind, B, t.dl[..], t.max_code) && CodesOk(t.fc[..], t.dl[..t.max_code + 1])
    ensures Occurring(f0, Elems(t.kind)) <= B && |f0| == t.fc.Length
    ensures Canonical.LensOk(t.dl[..t.max_code + 1])
  {
    hide GoodLengths, Best, Cheapest, Fib, H.Sum, CodesOk, Canonical.Complete;
  }

  /** What the two trees of a block are good for, and what the body takes in them. */
  lemma {:induction false} BothBuilt(ts: seq<Token>, lf: seq<nat>, df: seq<nat>, LB: set<nat>, DB: set<nat>,
      ldl: seq<nat>, ddl: seq<nat>, lmax: int, dmax: int)
    requires (forall i :: 0 <= i < |ts| ==> TokenOk(ts[i])) && |lf| == |ldl| >= 286 && |df| == |ddl| >= 30
    requires SameTo(lf, BlockFreqs(|lf|, ts), 286) && SameTo(df, DistFreqs(|df|, ts), 30)
    requires Occurring(lf, 286) <= LB && Occurring(df, 30) <= DB && CodeLensOk(LTREE, LB, ldl, lmax)
        && CodeLensOk(DTREE, DB, ddl, dmax)
    ensures 256 <= lmax < 286 && 0 <= dmax < 30
    ensures var ll, dl := ldl[..lmax + 1], ddl[..dmax + 1];
            && R.GoodCode(ll) && R.GoodCode(dl) && Canonical.Used(ll, 256) && AllSendable(ll, dl, ts)
            && AllSendable(StaticL(), StaticD(), ts) && Canonical.Used(StaticL(), 256)
            && DynCost(LTREE, lf, ldl) + DynCost(DTREE, df, ddl) == |BodyBits(ll, dl, ts)|
            && StaticCost(LTREE, Occurring(lf, 286), lf) + StaticCost(DTREE, Occurring(df, 30), df)
               == |BodyBits(StaticL(), StaticD(), ts)|
  {
    hide StaticL, StaticD, BodyBits, SymbolBits, DynCost, StaticCost, Occurring, Canonical.Complete, Canonical.LensOk,
         BlockFreqs, DistFreqs, AllSendable, StaticLen, XBits, R.GoodCode;
    BuiltSendable(ts, lf, df, LB, DB, ldl, ddl, lmax, dmax);
    CompleteGood(ldl[..lmax + 1]);
    CompleteGood(ddl[..dmax + 1]);
    StaticUsed(ts);
    BodyCost(ldl[..lmax + 1], ddl[..dmax + 1], ts, lf, df, ldl, ddl);
    StaticMatch(|lf|, |df|);
    BodyCost(StaticL(), StaticD(), ts, lf, df, StaticOf(LTREE, |lf|), StaticOf(DTREE, |df|));
    DynIsSymbolBits(LTREE, lf, ldl);
    DynIsSymbolBits(DTREE, df, ddl);
  }

  /** The form in the block's own codes. */
  ghost predicate OwnForm(ts: seq<Token>, f: Form) {
    f.Dynamic? && f.dts == ts && FormOk(f) && Tuned(LTREE, ts, f.ll) && Tuned(DTREE, ts, f.dl)
  }

  /** How many whole bytes a compressed block takes. */
  function BlockBytes(f: Form): nat
    requires FormOk(f)
  {
    (|BlockBits(f, false, 0)| + 7) / 8
  }

  lemma {:induction false} FormSizes(ts: seq<Token>, ll: seq<nat>, dl: seq<nat>, bls: seq<nat>, n: nat)
    requires AllSendable(ll, dl, ts) && Canonical.Used(ll, 256) && CL.Announced(ll, dl, bls, n)
    requires R.GoodCode(ll) && R.GoodCode(dl) && AllSendable(StaticL(), StaticD(), ts) && Canonical.Used(StaticL(), 256)
    ensures FormOk(Dynamic(ts, ll, dl, bls, n)) && FormOk(Static(ts))
    ensures BlockBytes(Dynamic(ts, ll, dl, bls, n))
         == (|CL.TreesBits(ll, dl, bls, n)| + |BodyBits(ll, dl, ts)| + 3 + 7) / 8
    ensures BlockBytes(Static(ts)) == (|BodyBits(StaticL(), StaticD(), ts)| + 3 + 7) / 8
  {
    hide CL.TreesBits, CL.Announced, StaticL, StaticD, BodyBits, AllSendable, ToBits, R.GoodCode;
  }

  /** The form that _tr_flush_block sends: the shorter one of those that are allowed, by whole bytes, the
      static one rather than an equal dynamic one, and the bytes themselves if they take no more. */
  ghost predicate Chosen(f: Form, own: Form, ts: seq<Token>, data: R.Option<seq<byte>>, fixed: bool) {
    && FormOk(own) && FormOk(Static(ts))
    && var s, d := BlockBytes(Static(ts)), BlockBytes(own);
    var best := if fixed || s <= d then s else d;
    if data.Some? && |data.value| + 4 <= best then f == Stored(data.value)
    else if fixed || s <= d then f == Static(ts)
    else f == own
  }

  /** So no form that is allowed takes fewer bytes. */
  lemma {:induction false} NoneShorter(f: Form, own: Form, ts: seq<Token>, data: R.Option<seq<byte>>, fixed: bool)
    requires Chosen(f, own, ts, data, fixed) && OwnForm(ts, own)
    ensures FormOk(own) && FormOk(Static(ts))
    ensures fixed ==> !f.Dynamic?
    ensures !f.Stored? ==>
              && FormOk(f) && BlockBytes(f) <= BlockBytes(Static(ts)) && (fixed || BlockBytes(f) <= BlockBytes(own))
              && (data.Some? ==> BlockBytes(f) < |data.value| + 4)
    ensures f.Stored? ==>
              && data == R.Some(f.bytes) && |f.bytes| + 4 <= BlockBytes(Static(ts))
              && (fixed || |f.bytes| + 4 <= BlockBytes(own))
  {
    hide FormOk, BlockBits, Tuned;
  }

  lemma {:induction false} SymbolBitsSame(k: Kind, f: seq<nat>, g: seq<nat>, l: seq<nat>)
    requires |f| == |g| == |l| && SameTo(f, g, Elems(k))
    ensures SymbolBits(k, f, l) == SymbolBits(k, g, l)
  {
    hide H.Times;
    H.SumSame(All(Elems(k)), H.Weighted(f, l), H.Weighted(g, l));
    H.SumSame(All(Elems(k)), H.Weighted(f, ExtraOf(k, |f|)), H.Weighted(g, ExtraOf(k, |f|)));
  }

  /** The body of a block takes what the symbols counted for it take. */
  lemma {:induction false} BodyCost(ll: seq<nat>, dl: seq<nat>, ts: seq<Token>, lf: seq<nat>, df: seq<nat>,
      lw: seq<nat>, dw: seq<nat>)
    requires AllSendable(ll, dl, ts) && Canonical.Used(ll, 256) && |lw| >= 286 && |dw| >= 30
    requires (forall s :: 0 <= s < 286 && s < |ll| ==> lw[s] == ll[s])
        && (forall s :: 0 <= s < 30 && s < |dl| ==> dw[s] == dl[s])
    requires |lf| == |lw| && |df| == |dw| && SameTo(lf, BlockFreqs(|lw|, ts), 286)
        && SameTo(df, DistFreqs(|dw|, ts), 30)
    ensures |BodyBits(ll, dl, ts)| == SymbolBits(LTREE, lf, lw) + SymbolBits(DTREE, df, dw)
  {
    hide SymbolBits, TokensBits, AllSendable, Canonical.CodeBits, LengthFreqs, DistFreqs;
    TokensCost(ll, dl, ts, lw, dw);
    OneMore(LTREE, LengthFreqs(|lw|, ts), lw, 256);
    SymbolBitsSame(LTREE, lf, BlockFreqs(|lw|, ts), lw);
    SymbolBitsSame(DTREE, df, DistFreqs(|dw|, ts), dw);
  }

  lemma {:induction false} TokenCounted(n: nat, m: nat, ts: seq<Token>, i: nat)
    requires i < |ts| && TokenOk(ts[i]) && n >= 286 && m >= 30
    ensures LengthSymbol(ts[i]) < 286 && LengthFreqs(n, ts)[LengthSymbol(ts[i])] > 0
    ensures DistSymbol(ts[i]) < 30 && (ts[i].Match? ==> DistFreqs(m, ts)[DistSymbol(ts[i])] > 0)
    decreases |ts|
  {
    hide LengthSymbol, DistSymbol;
    LengthSymbolRange(ts[i]);
    if i < |ts| - 1 { TokenCounted(n, m, ts[..|ts| - 1], i); }
  }

  /** The codes that were built have every symbol of the block. */
  lemma {:induction false} BuiltSendable(ts: seq<Token>, lf: seq<nat>, df: seq<nat>, LB: set<nat>, DB: set<nat>,
                                         ldl: seq<nat>, ddl: seq<nat>, lmax: int, dmax: int)
    requires (forall i :: 0 <= i < |ts| ==> TokenOk(ts[i])) && |lf| >= 286 && |df| >= 30
    requires SameTo(lf, BlockFreqs(|lf|, ts), 286) && SameTo(df, DistFreqs(|df|, ts), 30)
    requires Occurring(lf, 286) <= LB && Occurring(df, 30) <= DB && CodeLensOk(LTREE, LB, ldl, lmax)
        && CodeLensOk(DTREE, DB, ddl, dmax)
    ensures lmax >= 256 && Canonical.Used(ldl[..lmax + 1], 256)
    ensures AllSendable(ldl[..lmax + 1], ddl[..dmax + 1], ts)
  {
    hide Canonical.Complete, LengthFreqs, DistFreqs, LengthSymbol, DistSymbol;
    InOccurring(lf, 286, 256);
    forall i | 0 <= i < |ts| ensures Sendable(ldl[..lmax + 1], ddl[..dmax + 1], ts[i]) {
      TokenCounted(|lf|, |lf|, ts, i);
      TokenCounted(|df| + 286, |df|, ts, i);
      InOccurring(lf, 286, LengthSymbol(ts[i]));
      InOccurring(df, 30, DistSymbol(ts[i]));
    }
  }

  lemma {:induction false} StaticUsed(ts: seq<Token>)
    requires forall i :: 0 <= i < |ts| ==> TokenOk(ts[i])
    ensures AllSendable(StaticL(), StaticD(), ts) && Canonical.Used(StaticL(), 256)
  {
    hide R.FixedLens, LengthSymbol, DistSymbol;
    StaticLengths();
    forall i | 0 <= i < |ts| ensures Sendable(StaticL(), StaticD(), ts[i]) {
      LengthSymbolRange(ts[i]);
    }
  }

  lemma {:induction false} StaticLengths()
    ensures forall s :: 0 <= s < 286 ==> 7 <= StaticL()[s] <= 9 && (s >= 257 ==> StaticL()[s] <= 8)
    ensures StaticL()[256] == 7 && forall s :: 0 <= s < 30 ==> StaticD()[s] == 5
  {
  }

  /** A static symbol takes at most 31 bits. */
  lemma {:induction false} StaticTokenSize(t: Token)
    requires TokenOk(t) && Sendable(StaticL(), StaticD(), t)
    ensures |TokenBits(StaticL(), StaticD(), t)| <= 31
  {
    hide R.FixedLens, StaticL, StaticD;
    StaticLengths();
    LengthSymbolRange(t);
    TokenCost(StaticL(), StaticD(), t);
    if t.Match? {
      var c, e := LenCode(t.length - 3), DistCode(t.dist - 1);
      R.LengthBound(c);
      R.DistBound(e);
    }
  }

  lemma {:induction false} StaticSize(ts: seq<Token>)
    requires AllSendable(StaticL(), StaticD(), ts)
    ensures |TokensBits(StaticL(), StaticD(), ts)| <= 31 * |ts|
    decreases |ts|
  {
    hide TokenBits, StaticL, StaticD;
    if ts != [] {
      var n := |ts| - 1;
      assert Sendable(StaticL(), StaticD(), ts[n]);
      StaticSize(ts[..n]);
      StaticTokenSize(ts[n]);
    }
  }

  /** After k static symbols of a block that starts with no byte pending, what is pending ends
      before the first symbol still to be read, when they lie in the last three quarters of the
      buffer. */
  lemma {:induction false} OverlayBound(ts: seq<Token>, k: nat, lit_bufsize: nat, pending: nat)
    requires AllSendable(StaticL(), StaticD(), ts) && k <= |ts| < lit_bufsize
    requires AllSendable(StaticL(), StaticD(), ts[..k])
        && 8 * pending <= 10 + |TokensBits(StaticL(), StaticD(), ts[..k])|
    ensures pending <= lit_bufsize + 3 * k
  {
    StaticSize(ts[..k]);
  }

  /** compress_block for a static block where the source has its symbols: in the buffer that the
      output goes to, from lit_bufsize on. No symbol is overwritten before it is read, so that
      the block comes out as from a buffer of its own. */
  method CompressOverlay(w: Writer, lit_bufsize: nat, sym_next: nat, ghost ts: seq<Token>, lcodes: seq<nat>,
      dcodes: seq<nat>,
                         ghost room: nat)
    requires w.Valid() && Room(w, room) && w.buf.Length == 4 * lit_bufsize && |ts| < lit_bufsize
    requires Buffered(w.buf[lit_bufsize..], sym_next, ts) && 8 * w.pending + w.bi_valid <= 10
    requires CodesOk(lcodes, StaticL()) && CodesOk(dcodes, StaticD())
    requires AllSendable(StaticL(), StaticD(), ts) && Canonical.Used(StaticL(), 256)
    requires |BodyBits(StaticL(), StaticD(), ts)| <= room
    modifies w.buf, w`pending, w`bi_buf, w`bi_valid
    ensures w.Valid() && Room(w, room - |BodyBits(StaticL(), StaticD(), ts)|)
    ensures w.Stream() == old(w.Stream()) + BodyBits(StaticL(), StaticD(), ts)
  {
    hide Canonical.CodeBits, CodesOk, Writer.Stream, TokenBits, TokensBits, AllSendable, Sendable, TokenOf, StaticL,
         StaticD, Buffered;
    ghost var s0, k, sym, bits := w.Stream(), 0, w.buf[lit_bufsize..], 8 * w.pending + w.bi_valid;
    var sx := 0;
    NoTokens(StaticL(), StaticD(), ts, s0);
    BufferedSize(sym, sym_next, ts);
    while sx < sym_next
      invariant sx == 3 * k && k <= |ts| && AllSendable(StaticL(), StaticD(), ts[..k])
      invariant w.Valid() && |TokensBits(StaticL(), StaticD(), ts[..k])| + StaticL()[256] <= room
      invariant Room(w, room - |TokensBits(StaticL(), StaticD(), ts[..k])|)
      invariant 8 * w.pending + w.bi_valid == bits + |TokensBits(StaticL(), StaticD(), ts[..k])|
      invariant w.pending <= lit_bufsize + 3 * k
      invariant forall i :: lit_bufsize + 3 * k <= i < w.buf.Length ==> w.buf[i] == sym[i - lit_bufsize]
      invariant w.Stream() == s0 + TokensBits(StaticL(), StaticD(), ts[..k])
    {
      BufferedToken(sym, sym_next, ts, k);
      TokensStep(StaticL(), StaticD(), ts, k);
      var dist: nat := w.buf[lit_bufsize + sx];
      var high: nat := w.buf[lit_bufsize + sx + 1];
      dist := dist + 256 * high;
      var lc := w.buf[lit_bufsize + sx + 2];
      ghost var before := TokensBits(StaticL(), StaticD(), ts[..k]);
      Joined(s0, before, TokenBits(StaticL(), StaticD(), ts[k]));
      SendToken(w, lcodes, StaticL(), dcodes, StaticD(), dist, lc, room - |before|);
      sx := sx + 3;
      k := k + 1;
      OverlayBound(ts, k, lit_bufsize, w.pending);
    }
    assert ts[..k] == ts;
    Joined(s0, TokensBits(StaticL(), StaticD(), ts), Canonical.CodeBits(StaticL(), 256));
    SendCode(w, lcodes, StaticL(), 256, room - |TokensBits(StaticL(), StaticD(), ts)|);
  }

  lemma {:induction false} BufferedSize(sym: seq<byte>, next: nat, ts: seq<Token>)
    requires Buffered(sym, next, ts)
    ensures next == 3 * |ts| <= |sym|
  {
  }

  lemma {:induction false} BufferedToken(sym: seq<byte>, next: nat, ts: seq<Token>, k: nat)
    requires Buffered(sym, next, ts) && k < |ts|
    ensures 3 * k + 2 < |sym|
    ensures var lo: nat, hi: nat := sym[3 * k], sym[3 * k + 1]; ts[k] == TokenOf(lo + 256 * hi, sym[3 * k + 2])
  {
    hide TokenOf;
    assert BufferedAt(sym, ts, k);
  }

  // ---- the static trees ----

  lemma {:induction false} EarlyCodes(cnt: seq<nat>, l: nat)
    requires |cnt| == 16 && l <= 15 && forall i :: 0 < i < l ==> cnt[i] == 0
    ensures Canonical.FirstCode(cnt, l) == 0
  {
    if l > 0 { EarlyCodes(cnt, l - 1); }
  }

  lemma {:induction false} CountFives(n: nat)
    requires n <= 32
    ensures Canonical.Count(StaticD()[..n], 5) == n
  {
    R.CountFill(n, 5, 5);
    assert StaticD()[..n] == R.Fill(n, 5);
  }

  /** The code word of distance symbol n is n. */
  lemma {:induction false} StaticDistCode(n: nat)
    requires n < 32
    ensures Canonical.CodeBits(StaticD(), n) == MsbBits(n, 5)
  {
    var cnt := Canonical.Counts(StaticD());
    forall i: nat | 0 < i < 5 ensures cnt[i] == 0 { R.FixedCounts(i); }
    EarlyCodes(cnt, 5);
    CountFives(n);
  }

  method FillLens(dl: array<nat>, n0: nat, to: nat, v: nat, bl_count: array<nat>) returns (n: nat)
    requires n0 <= to <= dl.Length && v < bl_count.Length && dl != bl_count
    modifies dl, bl_count
    ensures n == to && forall k :: 0 <= k < dl.Length ==> dl[k] == if n0 <= k < to then v else old(dl[k])
    ensures bl_count[..] == old(bl_count[..])[v := old(bl_count[v]) + (to - n0)]
  {
    n := n0;
    while n < to
      invariant n0 <= n <= to && forall k :: 0 <= k < dl.Length ==> dl[k] == if n0 <= k < n then v else old(dl[k])
      invariant bl_count[..] == old(bl_count[..])[v := old(bl_count[v]) + (n - n0)]
    {
      dl[n] := v;
      n := n + 1;
      bl_count[v] := bl_count[v] + 1;
    }
  }

  /** tr_static_init: the code words of the static trees. Symbols 286 and 287 take part in
      making the code, though they are never sent. */
  method TrStaticInit() returns (lcodes: seq<nat>, dcodes: seq<nat>)
    ensures CodesOk(lcodes, StaticL()) && CodesOk(dcodes, StaticD())
  {
    hide CodesOk;
    var fc, dl := new nat[288](i => 0), new nat[288](i => 0);
    var bl_count := new nat[16](i => 0);
    var n := FillLens(dl, 0, 144, 8, bl_count);
    n := FillLens(dl, n, 256, 9, bl_count);
    n := FillLens(dl, n, 280, 7, bl_count);
    n := FillLens(dl, n, 288, 8, bl_count);
    assert dl[..288] == StaticL();
    StaticCounts(bl_count[..]);
    GenerateCodes(fc, dl, 288, bl_count);
    lcodes := fc[..];
    dcodes := StaticDistCodes();
  }

  method StaticDistCodes() returns (dcodes: seq<nat>)
    ensures CodesOk(dcodes, StaticD())
  {
    hide Canonical.CodeBits, MsbBits, ToBits, Pow2;
    dcodes := [];
    for n := 0 to 32
      invariant |dcodes| == n && forall k: nat :: k < n ==>
          dcodes[k] < Pow2(5) && ToBits(dcodes[k], 5) == Canonical.CodeBits(StaticD(), k)
    {
      var r := BiReverse(n, 5);
      StaticDistCode(n);
      dcodes := dcodes + [r];
    }
  }

  lemma {:induction false} StaticCounts(c: seq<nat>)
    requires |c| == 16 && c[7] == 24 && c[8] == 152 && c[9] == 112 && forall i :: 0 <= i < 16 && !(7 <= i <= 9) ==>
        c[i] == 0
    ensures Canonical.LensOk(StaticL()) && Canonical.NotOver(StaticL())
    ensures forall l :: 1 <= l <= 15 ==> c[l] == Canonical.Count(StaticL(), l)
  {
    R.FixedGood();
    forall l: nat | 1 <= l <= 15 ensures c[l] == Canonical.Count(StaticL(), l) { R.FixedCounts(l); }
  }

  // ---- the state of a block ----

  class BlockState {
    const w: Writer
    const b: Builder
    const l: Tree
    const d: Tree
    const bl: Tree
    const sym_buf: array<byte>
    const lit_bufsize: nat
    const lcodes: seq<nat>       // code words of the static trees
    const dcodes: seq<nat>
    ghost const parts: set<object>
    var sym_next: nat
    ghost var ts: seq<Token>     // the tokens of the block so far

    /** _tr_init */
    constructor (size: nat)
      requires size >= 64
      ensures PartsOk() && fresh(parts)
      ensures Valid() && ts == [] && lit_bufsize == size && w.Valid() && w.Stream() == [] && w.pending == 0
          && w.bi_valid == 0 && w.gone == []
    {
      hide CodesOk, StaticL, StaticD, LengthFreqs, Writer.Stream, Fresh, Buffered;
      lit_bufsize := size;
      var wr := new Writer(4 * size);
      var bu := new Builder();
      var lt := new Tree(LTREE);
      var dt := new Tree(DTREE);
      var blt := new Tree(BLTREE);
      var sym := new byte[3 * size](i => 0);
      w, b, l, d, bl, sym_buf := wr, bu, lt, dt, blt, sym;
      parts := {this, wr, bu, lt, dt, blt, sym, wr.buf, bu.heap, bu.depth, bu.bl_count, lt.fc, lt.dl, dt.fc, dt.dl,
          blt.fc, blt.dl};
      var lc, dc := TrStaticInit();
      lcodes, dcodes := lc, dc;
      sym_next, ts := 0, [];
      new;
      InitBlock();
    }

    ghost predicate Shape() {
      && Separate(b, l, d, bl) && sym_buf != w.buf && lit_bufsize >= 64 && sym_buf.Length == 3 * lit_bufsize
          && w.buf.Length == 4 * lit_bufsize
      && CodesOk(lcodes, StaticL()) && CodesOk(dcodes, StaticD())
    }

    /** The frequencies count the tokens of the block, and nothing is added up yet. */
    ghost predicate Fresh()
      reads l, d, bl, b, l.fc, d.fc, bl.fc, `ts
    {
      && SameTo(l.fc[..], BlockFreqs(l.fc.Length, ts), 286) && SameTo(d.fc[..], DistFreqs(d.fc.Length, ts), 30)
      && SameTo(bl.fc[..], R.Fill(bl.fc.Length, 0), 19) && b.opt_len == 0 == b.static_len
    }

    ghost predicate Valid()
      reads this, l, d, bl, b, w, l.fc, d.fc, bl.fc, sym_buf
    {
      && Shape() && w.Valid() && Fresh() && Buffered(sym_buf[..], sym_next, ts) && |ts| < lit_bufsize
    }

    /** init_block */
    method InitBlock()
      requires Shape()
      modifies l.fc, d.fc, bl.fc, b`opt_len, b`static_len, `sym_next, `ts
      ensures Fresh() && ts == [] && Buffered(sym_buf[..], sym_next, ts)
    {
      for n := 0 to 286
        invariant forall k :: 0 <= k < n ==> l.fc[k] == 0
      { l.fc[n] := 0; }
      for n := 0 to 30
        invariant forall k :: 0 <= k < n ==> d.fc[k] == 0
        invariant forall k :: 0 <= k < 286 ==> l.fc[k] == 0
      { d.fc[n] := 0; }
      for n := 0 to 19
        invariant forall k :: 0 <= k < n ==> bl.fc[k] == 0
        invariant (forall k :: 0 <= k < 286 ==> l.fc[k] == 0) && forall k :: 0 <= k < 30 ==> d.fc[k] == 0
      { bl.fc[n] := 0; }
      l.fc[256] := 1;
      b.opt_len, b.static_len := 0, 0;
      sym_next, ts := 0, [];
    }

    /** Count the symbols of a token. */
    method CountToken(dist: nat, lc: byte, ghost t: Token)
      requires Shape() && Fresh() && dist <= 32768 && t == TokenOf(dist, lc)
      modifies l.fc, d.fc, `ts
      ensures Fresh() && ts == old(ts) + [t]
    {
      hide LengthSymbol, DistSymbol, StaticL, StaticD, CodesOk, BlockFreqs, DistFreqs, LenCode, DistCode, SameTo,
           R.Fill, Bump;
      TallySymbols(dist, lc);
      BlockBump(l.fc.Length, ts, t);
      TallyFreqs(l.fc.Length, d.fc.Length, ts, t);
      SameBump(l.fc[..], BlockFreqs(l.fc.Length, ts), 286, LengthSymbol(t));
      ghost var lf: seq<nat>, df: seq<nat> := l.fc[..], d.fc[..];
      if dist == 0 {
        l.fc[lc] := l.fc[lc] + 1;
        assert l.fc[..] == lf[lc := lf[lc] + 1] && d.fc[..] == df;
      } else {
        SameBump(df, DistFreqs(d.fc.Length, ts), 30, DistSymbol(t));
        var c, e := LenCode(lc) + 257, DistCode(dist - 1);
        l.fc[c] := l.fc[c] + 1;
        d.fc[e] := d.fc[e] + 1;
        assert l.fc[..] == lf[c := lf[c] + 1] && d.fc[..] == df[e := df[e] + 1];
      }
      ts := ts + [t];
    }

    /** _tr_tally: note a literal (dist 0) or a match, and say whether the block is full. */
    method Tally(dist: nat, lc: byte) returns (full: bool)
      requires Valid() && PartsOk() && dist <= 32768 && |ts| + 1 < lit_bufsize
      modifies parts
      ensures unchanged(w)
      ensures Valid() && ts == old(ts) + [TokenOf(dist, lc)] && full == (|ts| == lit_bufsize - 1)
      ensures w.Valid() && w.Stream() == old(w.Stream())
    {
      hide StaticL, StaticD, CodesOk, Fresh, Writer.Stream;
      TallyBytes(dist);
      BufferedMore(sym_buf[..], sym_next, ts, dist, lc);
      ghost var sym: seq<byte> := sym_buf[..];
      sym_buf[sym_next] := dist % 256;
      sym_buf[sym_next + 1] := dist / 256;
      sym_buf[sym_next + 2] := lc;
      assert sym_buf[..] == sym[sym_next := dist % 256][sym_next + 1 := dist / 256][sym_next + 2 := lc];
      sym_next := sym_next + 3;
      CountToken(dist, lc, TokenOf(dist, lc));
      full := sym_next == 3 * (lit_bufsize - 1);
    }

    /** Everything that belongs to the encoder of blocks. */
    ghost predicate PartsOk() {
      parts == {this, w, b, l, d, bl, sym_buf, w.buf, b.heap, b.depth, b.bl_count, l.fc, l.dl, d.fc, d.dl, bl.fc, bl.dl}
    }

    /** flush_pending, as far as the encoder of blocks is concerned. */
    method HandOut(room: nat) returns (bytes: seq<byte>)
      requires Valid() && PartsOk() && (w.out == 0 && w.bi_valid >= 8 ==> w.pending + 2 <= w.buf.Length)
      modifies parts
      ensures ts == old(ts) && Valid() && w.Valid() && w.Stream() == old(w.Stream()) && w.bi_valid < 8
      ensures w.gone == old(w.gone) + bytes && |bytes| <= room && (w.pending > 0 ==> |bytes| == room)
          && (w.pending == 0 ==> w.out == 0)
      ensures old(w.bi_valid) == 0 ==> w.bi_valid == 0
      ensures old(w.bi_valid) < 8 ==> |bytes| == if old(w.pending) < room then old(w.pending) else room
    {
      hide Fresh, Buffered, CodesOk, StaticL, StaticD, Writer.Stream, Separate;
      bytes := w.FlushPending(room);
    }

    /** _tr_stored_block */
    method Store(data: seq<byte>, last: bool)
      requires Valid() && PartsOk() && |data| <= 0xffff && w.pending == 0
          && (w.bi_valid + 42) / 8 + |data| <= 4 * lit_bufsize && w.bi_valid < 8
      modifies parts
      ensures ts == old(ts) && Valid() && w.Valid() && w.gone == old(w.gone) && w.out == 0 && w.bi_valid == 0
      ensures w.pending == (old(w.bi_valid) + 42) / 8 + |data|
      ensures w.Stream() == old(w.Stream()) + BlockBits(Stored(data), last, |old(w.Stream())|)
    {
      hide Fresh, Buffered, CodesOk, StaticL, StaticD, Writer.Stream, Separate, BlockBits;
      StoredBlock(w, data, last);
    }

    /** The header of a stored block of len bytes that go straight to the output. It is made
        as that of an empty block, and the lengths are then replaced. */
    method StoreHeader(len: nat, last: bool)
      requires Valid() && PartsOk() && len <= 0xffff && w.pending == 0 && w.bi_valid < 8
      modifies parts
      ensures ts == old(ts) && Valid() && w.Valid() && w.gone == old(w.gone) && w.out == 0 && w.bi_valid == 0
      ensures w.pending == (old(w.bi_valid) + 42) / 8
      ensures w.Stream() == old(w.Stream()) + StoredHeader(len, last, |old(w.Stream())|)
    {
      hide Fresh, Buffered, CodesOk, StaticL, StaticD, Writer.Stream, Separate, StoredHeader, BlockBits, ToBits,
           Padding;
      ghost var s := w.Stream();
      Store([], last);
      HeaderIs(s, len, last);
      w.PatchLengths(len);
    }

    /** Bytes that go straight to the output. */
    method PassThrough(data: seq<byte>)
      requires Valid() && PartsOk() && w.pending == 0 && w.bi_valid == 0
      modifies parts
      ensures ts == old(ts) && Valid() && w.Valid() && w.gone == old(w.gone) + data && w.pending == 0 && w.bi_valid == 0
      ensures w.Stream() == old(w.Stream()) + BytesBits(data)
    {
      hide Fresh, Buffered, CodesOk, StaticL, StaticD, Writer.Stream, Separate;
      w.PassThrough(data);
    }

    /** _tr_align: an empty static block. */
    method Align()
      requires Valid() && PartsOk() && w.pending == 0 && w.bi_valid < 8
      modifies parts
      ensures ts == old(ts) && w.gone == old(w.gone) && Valid() && w.Valid() && w.out == 0 && w.bi_valid < 8
          && w.pending + 2 <= w.buf.Length && FormOk(Static([]))
      ensures w.Stream() == old(w.Stream()) + BlockBits(Static([]), false, |old(w.Stream())|)
    {
      hide ToBits, Writer.Stream, StaticL, StaticD, CodesOk, Buffered, Fresh;
      StaticUsed([]);
      StaticLengths();
      assert Pow2(3) == 8;
      ghost var s := w.Stream();
      Send(w, 2, 3, 13);
      SendCode(w, lcodes, StaticL(), 256, 10);
      Joined(s, ToBits(2, 3), Canonical.CodeBits(StaticL(), 256));
      assert BodyBits(StaticL(), StaticD(), []) == Canonical.CodeBits(StaticL(), 256);
      w.Flush();
    }

    /** The codes of the block and their estimates are made. */
    ghost predicate Made(max_blindex: nat)
      requires Shape()
      reads this, l, d, bl, b, l.fc, d.fc, bl.fc, l.dl, d.dl, bl.dl
    {
      && BlReady(l, d, bl, max_blindex)
      && var ll, dl, bls := l.dl[..l.max_code + 1], d.dl[..d.max_code + 1], bl.dl[..19];
      && R.GoodCode(ll) && R.GoodCode(dl)
      && AllSendable(ll, dl, ts) && Canonical.Used(ll, 256) && CodesOk(l.fc[..], ll) && CodesOk(d.fc[..], dl)
      && AllSendable(StaticL(), StaticD(), ts) && Canonical.Used(StaticL(), 256)
      && b.opt_len == |CL.TreesBits(ll, dl, bls, max_blindex + 1)| + |BodyBits(ll, dl, ts)|
      && b.static_len == |BodyBits(StaticL(), StaticD(), ts)|
      && Tuned(LTREE, ts, ll) && Tuned(DTREE, ts, dl)
    }

    /** The form that they make. */
    ghost function Own(max_blindex: nat): (f: Form)
      requires Shape() && Made(max_blindex)
      reads this, l, d, bl, b, l.fc, d.fc, bl.fc, l.dl, d.dl, bl.dl
    {
      Dynamic(ts, l.dl[..l.max_code + 1], d.dl[..d.max_code + 1], bl.dl[..19], max_blindex + 1)
    }

    lemma {:induction false} OwnIs(max_blindex: nat)
      requires Shape() && Made(max_blindex)
      ensures OwnForm(ts, Own(max_blindex)) && FormOk(Static(ts))
      ensures BlockBytes(Own(max_blindex)) == (b.opt_len + 3 + 7) / 8
      ensures BlockBytes(Static(ts)) == (b.static_len + 3 + 7) / 8
    {
      hide CodesOk, CL.TreesBits, CL.Announced, StaticL, StaticD, BodyBits, AllSendable, Tuned, ToBits, BlockBytes;
      FormSizes(ts, l.dl[..l.max_code + 1], d.dl[..d.max_code + 1], bl.dl[..19], max_blindex + 1);
    }

    /** Literal and distance codes for the block; the estimates are those of its body. */
    method BuildCodes()
      requires Shape() && Fresh() && forall i :: 0 <= i < |ts| ==> TokenOk(ts[i])
      modifies b, b.heap, b.depth, b.bl_count, l.fc, l.dl, l`max_code, d.fc, d.dl, d`max_code
      ensures 256 <= l.max_code < 286 && 0 <= d.max_code < 30
      ensures CodesOk(l.fc[..], l.dl[..l.max_code + 1]) && CodesOk(d.fc[..], d.dl[..d.max_code + 1])
      ensures R.GoodCode(l.dl[..l.max_code + 1]) && R.GoodCode(d.dl[..d.max_code + 1])
      ensures Canonical.LensOk(l.dl[..l.max_code + 1]) && Canonical.LensOk(d.dl[..d.max_code + 1])
      ensures AllSendable(l.dl[..l.max_code + 1], d.dl[..d.max_code + 1], ts)
          && Canonical.Used(l.dl[..l.max_code + 1], 256)
      ensures AllSendable(StaticL(), StaticD(), ts) && Canonical.Used(StaticL(), 256)
      ensures b.opt_len == |BodyBits(l.dl[..l.max_code + 1], d.dl[..d.max_code + 1], ts)|
      ensures b.static_len == |BodyBits(StaticL(), StaticD(), ts)|
      ensures Tuned(LTREE, ts, l.dl[..l.max_code + 1]) && Tuned(DTREE, ts, d.dl[..d.max_code + 1])
    {
      hide Tuned, StaticL, StaticD, CodesOk, BodyBits, SymbolBits, DynCost, StaticCost, Occurring, GoodLengths,
           Cheapest,
           Canonical.Complete, Canonical.LensOk, Built, SameTo, ForcedOnly, H.Sum, Best, Fib, CodeLensOk, R.GoodCode,
           BlockFreqs, DistFreqs, AllSendable, StaticLen, XBits;
      ghost var lf, df := l.fc[..], d.fc[..];
      ghost var LB, DB, freq0, merges0, freq, merges;
      LB, freq0, merges0 := b.BuildTree(l);
      BuiltTuned(l, ts, lf, LB, freq0, merges0);
      DB, freq, merges := b.BuildTree(d);
      BuiltTuned(d, ts, df, DB, freq, merges);
      BuiltFacts(l, lf, LB, freq0, merges0);
      BuiltFacts(d, df, DB, freq, merges);
      BothBuilt(ts, lf, df, LB, DB, l.dl[..], d.dl[..], l.max_code, d.max_code);
    }

    lemma {:induction false} TokensOk()
      requires Buffered(sym_buf[..], sym_next, ts)
      ensures forall i :: 0 <= i < |ts| ==> TokenOk(ts[i])
    {
      forall i: nat | i < |ts| ensures TokenOk(ts[i]) { assert BufferedAt(sym_buf[..], ts, i); }
    }

    /** All codes of the block. */
    method BuildAll() returns (max_blindex: nat)
      requires Shape() && Fresh() && forall i :: 0 <= i < |ts| ==> TokenOk(ts[i])
      modifies b, b.heap, b.depth, b.bl_count, l.fc, l.dl, l`max_code, d.fc, d.dl, d`max_code, bl.fc, bl.dl, bl`max_code
      ensures Made(max_blindex)
    {
      hide StaticL, StaticD, CodesOk, BodyBits, CL.TreesBits, CL.Announced, AllSendable, BlockFreqs, DistFreqs,
           Canonical.LensOk, Tuned;
      BuildCodes();
      ghost var ll, dl := l.dl[..l.max_code + 1], d.dl[..d.max_code + 1];
      assert ll[256] != 0;
      max_blindex := BuildBlTree(b, l, d, bl);
    }

    /** The estimates in bytes decide on the form: 0 stored, 1 static, 2 dynamic. */
    method Choose(stored_len: nat, given: bool, fixed: bool, level: nat) returns (form: nat, max_blindex: nat)
      requires Shape() && Fresh() && (forall i :: 0 <= i < |ts| ==> TokenOk(ts[i])) && (level > 0 || given)
      modifies b, b.heap, b.depth, b.bl_count, l.fc, l.dl, l`max_code, d.fc, d.dl, d`max_code, bl.fc, bl.dl, bl`max_code
      ensures form <= 2 && (form != 0 ==> level > 0 && Made(max_blindex)) && (form == 0 ==> given)
      ensures form == 0 && level > 0 ==> 8 * stored_len + 32 <= 31 * |ts| + 17
      ensures form == 1 && given ==> b.static_len <= 8 * stored_len + 21
      ensures form == 2 ==> b.opt_len <= b.static_len && (given ==> b.opt_len <= 8 * stored_len + 21)
      ensures form != 0 ==> b.static_len <= 31 * |ts| + 7
      ensures level == 0 ==> form == 0
      ensures level > 0 ==>
                && Made(max_blindex) && OwnForm(ts, Own(max_blindex)) && FormOk(Static(ts))
                && var s, d := BlockBytes(Static(ts)), BlockBytes(Own(max_blindex));
                var best := if fixed || s <= d then s else d;
                form == if stored_len + 4 <= best && given then 0 else if fixed || s <= d then 1 else 2
    {
      hide Made, StaticL, StaticD, CodesOk;
      max_blindex := 0;
      var opt_lenb, static_lenb;
      if level > 0 {
        max_blindex := BuildAll();
        EstimateBound(max_blindex);
        OwnIs(max_blindex);
        opt_lenb := (b.opt_len + 3 + 7) / 8;
        static_lenb := (b.static_len + 3 + 7) / 8;
        if static_lenb <= opt_lenb || fixed { opt_lenb := static_lenb; }
      } else {
        static_lenb := stored_len + 5;
        opt_lenb := static_lenb;
      }
      if stored_len + 4 <= opt_lenb && given {
        form := 0;
      } else if static_lenb == opt_lenb {
        form := 1;
      } else {
        form := 2;
      }
    }

    lemma {:induction false} EstimateBound(max_blindex: nat)
      requires Shape() && Made(max_blindex)
      ensures 0 <= b.opt_len && 0 <= b.static_len <= 31 * |ts| + 7
    {
      hide CodesOk, CL.TreesBits, CL.Announced, StaticL, StaticD, R.FixedLens;
      StaticSize(ts);
      StaticLengths();
    }

    /** A block in the static codes. */
    method StaticBlock(last: bool, ghost room: nat)
      requires Shape() && w.Valid() && Room(w, room) && Buffered(sym_buf[..], sym_next, ts)
          && AllSendable(StaticL(), StaticD(), ts) && Canonical.Used(StaticL(), 256)
      requires 3 + |BodyBits(StaticL(), StaticD(), ts)| <= room
      modifies w.buf, w`pending, w`bi_buf, w`bi_valid
      ensures w.Valid() && Room(w, room - 3 - |BodyBits(StaticL(), StaticD(), ts)|) && FormOk(Static(ts))
      ensures w.Stream() == old(w.Stream()) + BlockBits(Static(ts), last, |old(w.Stream())|)
    {
      hide ToBits, Writer.Stream, StaticL, StaticD, CodesOk, BodyBits, AllSendable, Buffered;
      SmallFlag(last);
      ghost var s, h := w.Stream(), ToBits(2 + Flag(last), 3);
      Send(w, 2 + Flag(last), 3, room);
      CompressBlock(w, sym_buf, sym_next, ts, lcodes, StaticL(), dcodes, StaticD(), room - 3);
      Joined(s, h, BodyBits(StaticL(), StaticD(), ts));
    }

    /** A block in its own codes. */
    method DynamicBlock(last: bool, max_blindex: nat, ghost room: nat) returns (ghost f: Form)
      requires Shape() && w.Valid() && Room(w, room) && Buffered(sym_buf[..], sym_next, ts) && Made(max_blindex)
          && 3 + b.opt_len <= room
      modifies w.buf, w`pending, w`bi_buf, w`bi_valid
      ensures w.Valid() && Room(w, room - 3 - b.opt_len) && f.Dynamic? && f.dts == ts && FormOk(f)
      ensures f == old(Own(max_blindex))
      ensures |BlockBits(f, last, |old(w.Stream())|)| == 3 + b.opt_len
      ensures w.Stream() == old(w.Stream()) + BlockBits(f, last, |old(w.Stream())|)
    {
      hide ToBits, Writer.Stream, StaticL, StaticD, CodesOk, BodyBits, AllSendable, Buffered, CL.TreesBits,
           CL.Announced, Tuned, BlockBytes;
      SmallFlag(last);
      ghost var s, h := w.Stream(), ToBits(4 + Flag(last), 3);
      var lcode, dcode, blcode := l.max_code + 1, d.max_code + 1, max_blindex + 1;
      var ll, dl, bls := l.dl[..lcode], d.dl[..dcode], bl.dl[..19];
      f := Own(max_blindex);
      OwnIs(max_blindex);
      ghost var trees, body := CL.TreesBits(ll, dl, bls, blcode), BodyBits(ll, dl, ts);
      Joined(s, h, trees);
      Joined(s, h + trees, body);
      SendDynamic(w, last, l.dl[..], d.dl[..], bl.fc[..], bls, lcode, dcode, blcode, room);
      CompressBlock(w, sym_buf, sym_next, ts, l.fc[..], ll, d.fc[..], dl, room - 3 - |trees|);
    }

    /** Send the block in the form chosen. */
    method SendForm(data: R.Option<seq<byte>>, last: bool, form: nat, max_blindex: nat) returns (ghost f: Form)
      requires Shape() && w.Valid() && Buffered(sym_buf[..], sym_next, ts) && |ts| < lit_bufsize && w.pending == 0
          && w.bi_valid < 8 && form <= 2
      requires form == 0 ==> data.Some? && |data.value| <= 0xffff && |data.value| + 12 <= 4 * lit_bufsize
      requires form != 0 ==> Made(max_blindex) && b.static_len <= 31 * |ts| + 7
      requires form == 2 ==> b.opt_len <= b.static_len
      modifies w.buf, w`pending, w`bi_buf, w`bi_valid
      ensures w.Valid() && w.out == 0 && FormOk(f)
          && w.Stream() == old(w.Stream()) + BlockBits(f, last, |old(w.Stream())|)
      ensures f == match form case 0 => Stored(data.value) case 1 => Static(ts) case _ => f
      ensures form == 2 ==> f.Dynamic? && f.dts == ts && |BlockBits(f, last, |old(w.Stream())|)| == 3 + b.opt_len
      ensures form == 2 ==> f == old(Own(max_blindex))
      ensures form == 1 ==> |BlockBits(f, last, |old(w.Stream())|)| == 3 + b.static_len
      ensures form != 0 ==> w.pending + 4 <= w.buf.Length
      ensures form == 0 ==> w.bi_valid == 0 && w.pending + 4 <= w.buf.Length
    {
      hide Writer.Stream, CodesOk, BodyBits, AllSendable, Buffered, StaticL, StaticD, CL.TreesBits, CL.Announced, Tuned,
           Own, R.GoodCode;
      ghost var room := 31 * |ts| + 10;
      if form == 0 {
        StoredBlock(w, data.value, last);
        f := Stored(data.value);
      } else if form == 1 {
        StaticBlock(last, room);
        f := Static(ts);
      } else {
        f := DynamicBlock(last, max_blindex, room);
      }
    }

    /** _tr_flush_block: write the block out in the form that the estimates favour, and start
        a new one. The last block is padded to a byte boundary. */
    method FlushBlock(data: R.Option<seq<byte>>, stored_len: nat, last: bool, fixed: bool, level: nat)
        returns (ghost f: Form, ghost own: Form)
      requires Valid() && w.pending == 0 && w.bi_valid < 8
      requires data.Some? ==> |data.value| == stored_len <= 0xffff
      requires PartsOk() && (level == 0 ==> data.Some? && stored_len + 12 <= 4 * lit_bufsize)
      modifies parts
      ensures Valid() && w.Valid() && ts == [] && FormOk(f) && w.gone == old(w.gone) && w.out == 0
          && w.pending + 2 <= w.buf.Length
      ensures last ==> w.bi_valid == 0
      ensures f == (match f case Stored(bytes) => (if data.Some? then Stored(data.value)
          else f) case Static(t) => Static(old(ts)) case Dynamic(t, x, y, z, n) => f.(dts := old(ts)))
      ensures f.Stored? ==> data.Some?
      ensures var before := old(w.Stream());
              w.Stream() == before + BlockBits(f, last, |before|) + if last
                  then Padding(|before| + |BlockBits(f, last, |before|)|) else []
      ensures data.Some? ==> |BlockBits(f, last, |old(w.Stream())|)| <= 8 * stored_len + 42
      ensures level > 0 ==> |BlockBits(f, last, |old(w.Stream())|)| <= 31 * |old(ts)| + 27
      ensures if level > 0 then OwnForm(old(ts), own) && Chosen(f, own, old(ts), data, fixed) else f.Stored?
    {
      hide Writer.Stream, CodesOk, Buffered, Made, StaticL, StaticD, BlockBits, Fresh, FormOk, Tuned, BlockBytes, Own,
           Separate;
      TokensOk();
      ghost var s0 := w.Stream();
      var form, max_blindex := Choose(stored_len, data.Some?, fixed, level);
      own := if level > 0 then Own(max_blindex) else Stored([]);
      f := SendForm(data, last, form, max_blindex);
      if form == 0 { StoredSize(data.value, last, |s0|); }
      EndBlock(last);
    }

    /** Start a new block, after padding the last one. */
    method EndBlock(last: bool)
      requires Shape() && w.Valid() && w.out == 0 && w.pending + 4 <= w.buf.Length
      modifies l.fc, d.fc, bl.fc, b`opt_len, b`static_len, `sym_next, `ts, w.buf, w`pending, w`bi_buf, w`bi_valid
      ensures w.pending + 2 <= w.buf.Length && (last ==> w.bi_valid == 0)
      ensures Valid() && ts == [] && w.Stream() == old(w.Stream()) + if last then Padding(|old(w.Stream())|) else []
    {
      hide Writer.Stream, CodesOk, Buffered, StaticL, StaticD, Fresh;
      InitBlock();
      ghost var s1 := w.Stream();
      assert s1 + [] == s1;
      if last { w.Windup(); }
    }
  }

  /** The bits of a stored block before its bytes. */
  function StoredHeader(len: nat, last: bool, at: nat): seq<bool>
    requires len <= 0xffff
  {
    ToBits(Flag(last), 3) + Padding(at + 3) + (ToBits(len, 16) + ToBits(0xffff - len, 16))
  }

  lemma {:induction false} StoredIs(data: seq<byte>, last: bool, at: nat)
    requires |data| <= 0xffff
    ensures BlockBits(Stored(data), last, at) == StoredHeader(|data|, last, at) + BytesBits(data)
  {
    hide ToBits, BytesBits, Padding;
  }

  lemma {:induction false} HeaderIs(s: seq<bool>, len: nat, last: bool)
    requires len <= 0xffff
    ensures var x := s + BlockBits(Stored([]), last, |s|);
            |x| >= 32 && x[..|x| - 32] + (ToBits(len, 16) + ToBits(0xffff - len, 16)) == s
                + StoredHeader(len, last, |s|)
  {
    hide ToBits, BytesBits, Padding;
    NoBits();
    var h := ToBits(Flag(last), 3) + Padding(|s| + 3);
    var x := s + BlockBits(Stored([]), last, |s|);
    assert x == s + h + (ToBits(0, 16) + ToBits(0xffff, 16));
    assert x[..|x| - 32] == s + h;
    Joined(s, h, ToBits(len, 16) + ToBits(0xffff - len, 16));
  }

  lemma {:induction false} StoredSize(data: seq<byte>, last: bool, at: nat)
    requires |data| <= 0xffff
    ensures |BlockBits(Stored(data), last, at)| <= 8 * |data| + 42
  {
    hide ToBits, BytesBits;
  }

  lemma {:induction false} SmallFlag(last: bool)
    ensures 4 + Flag(last) < Pow2(3)
  {
    assert Pow2(3) == 8;
  }

  /** The header of a dynamic block and its trees. */
  method SendDynamic(w: Writer, last: bool, ltree: seq<nat>, dtree: seq<nat>, codes: seq<nat>, bls: seq<nat>,
      lcodes: nat, dcodes: nat, blcodes: nat, ghost room: nat)
    requires w.Valid() && Room(w, room) && lcodes < |ltree| && dcodes < |dtree| && ltree[lcodes] == 0xffff
        && dtree[dcodes] == 0xffff
    requires CL.Announced(ltree[..lcodes], dtree[..dcodes], bls, blcodes) && CodesOk(codes, bls)
    requires 3 + |CL.TreesBits(ltree[..lcodes], dtree[..dcodes], bls, blcodes)| <= room
    modifies w.buf, w`pending, w`bi_buf, w`bi_valid
    ensures w.Valid() && Room(w, room - 3 - |CL.TreesBits(ltree[..lcodes], dtree[..dcodes], bls, blcodes)|)
    ensures w.Stream() == old(w.Stream()) + ToBits(4 + Flag(last), 3)
        + CL.TreesBits(ltree[..lcodes], dtree[..dcodes], bls, blcodes)
  {
    hide ToBits, Writer.Stream, CodesOk, CL.TreesBits, CL.Announced;
    SmallFlag(last);
    Send(w, 4 + Flag(last), 3, room);
    SendAllTrees(w, ltree, dtree, codes, bls, lcodes, dcodes, blcodes, room - 3);
  }

  lemma {:induction false} CompleteGood(lens: seq<nat>)
    requires Canonical.LensOk(lens) && Canonical.Complete(lens)
    ensures R.GoodCode(lens)
  {
  }

  lemma {:induction false} StaticMatch(n: nat, m: nat)
    requires n >= 286 && m >= 30
    ensures forall s :: 0 <= s < 286 ==> StaticOf(LTREE, n)[s] == StaticL()[s]
    ensures forall s :: 0 <= s < 30 ==> StaticOf(DTREE, m)[s] == StaticD()[s]
  {
    hide R.FixedLens;
  }

  lemma {:induction false} TallyBytes(dist: nat)
    requires dist <= 32768
    ensures dist / 256 < 256 && dist == dist % 256 + 256 * (dist / 256)
  {
  }

  lemma {:induction false} TallySymbols(dist: nat, lc: byte)
    requires dist <= 32768
    ensures TokenOk(TokenOf(dist, lc))
        && LengthSymbol(TokenOf(dist, lc)) == (if dist == 0 then lc else LenCode(lc) + 257)
    ensures dist > 0 ==> DistSymbol(TokenOf(dist, lc)) == DistCode(dist - 1)
    ensures LenCode(lc) + 257 < 286 && (dist > 0 ==> DistCode(dist - 1) < 30)
  {
    hide LenCode, DistCode;
  }

  /** One symbol more is counted. */
  lemma {:induction false} SameBump(f: seq<nat>, g: seq<nat>, n: nat, s: nat)
    requires SameTo(f, g, n) && s < n
    ensures SameTo(f[s := f[s] + 1], Bump(g, s), n)
  {
  }

  lemma {:induction false} BlockBump(n: nat, ts: seq<Token>, t: Token)
    ensures n > 285 ==> BlockFreqs(n, ts + [t]) == Bump(BlockFreqs(n, ts), LengthSymbol(t))
  {
    hide LengthSymbol, LengthFreqs, DistFreqs, Bump;
    TallyFreqs(n, n, ts, t);
    BumpSwap(LengthFreqs(n, ts), LengthSymbol(t), 256);
  }

  lemma {:induction false} BumpSwap(f: seq<nat>, a: nat, b: nat)
    ensures Bump(Bump(f, a), b) == Bump(Bump(f, b), a)
  {
  }

  lemma {:induction false} TallyFreqs(n: nat, m: nat, ts: seq<Token>, t: Token)
    ensures LengthFreqs(n, ts + [t]) == Bump(LengthFreqs(n, ts), LengthSymbol(t))
    ensures DistFreqs(m, ts + [t]) == if t.Match? then Bump(DistFreqs(m, ts), DistSymbol(t)) else DistFreqs(m, ts)
  {
    assert (ts + [t])[..|ts|] == ts;
  }

  lemma {:induction false} BufferedMore(sym: seq<byte>, next: nat, ts: seq<Token>, dist: nat, lc: byte)
    requires Buffered(sym, next, ts) && next + 3 <= |sym| && dist <= 32768
    ensures dist / 256 < 256
    ensures Buffered(sym[next := dist % 256][next + 1 := dist / 256][next + 2 := lc], next + 3,
        ts + [TokenOf(dist, lc)])
  {
    TallyBytes(dist);
    var s2, more := sym[next := dist % 256][next + 1 := dist / 256][next + 2 := lc], ts + [TokenOf(dist, lc)];
    forall k: nat | k < |more| ensures BufferedAt(s2, more, k) {
      if k < |ts| { assert BufferedAt(sym, ts, k); }
    }
  }
}
