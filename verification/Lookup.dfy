/** How inflate (inflate.c) looks a symbol up: it pulls input one byte at a time until the
    entry that the held bits lead to takes no more bits than are held. */
module Lookup {
  import opened Bits
  import opened Canonical
  import opened InfTrees
  import opened BitReader

  ghost predicate CodeOk(code: seq<nat>) {
    NotOver(code) && (Complete(code) || Sparse(code))
  }

  /** The last byte taken was needed: without it no symbol was known. */
  ghost predicate Late(code: seq<nat>, r: Regs) {
    r.bits < 8 || DecodeSym(code, HeldBits(r)[..r.bits - 8]) == NeedMore
  }

  /** No whole byte is held beyond the next symbol. */
  ghost predicate Fresh(code: seq<nat>, r: Regs) {
    match DecodeSym(code, HeldBits(r))
    case NeedMore => true
    case NoCode => r.bits < 9
    case Sym(s, n) => r.bits < n + 8
  }

  lemma {:induction false} FewIsFresh(code: seq<nat>, r: Regs)
    requires r.bits < 8
    ensures Fresh(code, r)
  {
    hide CodeBits, Complete;
  }

  /** A symbol found only once a byte came in uses bits of that byte. */
  lemma {:induction false} LateSymbol(code: seq<nat>, b: seq<bool>, m: nat)
    requires m <= |b| && DecodeSym(code, b[..m]) == NeedMore
    ensures match DecodeSym(code, b)
            case Sym(s, n) => n > m
            case NoCode => m == 0
            case NeedMore => true
  {
    hide Complete, CodeBits;
    match DecodeSym(code, b)
    case Sym(s, n) =>
      if n <= m {
        assert CodeBits(code, s) <= b[..m];
        var x := Matches(code, s, b[..m]);
      }
    case _ =>
  }

  lemma {:induction false} NeedMoreShort(code: seq<nat>, b: seq<bool>)
    requires CodeOk(code) && DecodeSym(code, b) == NeedMore
    ensures |b| < MAXBITS
  {
    hide CodeBits, Sparse;
    if Complete(code) {
      if |b| >= MAXBITS {
        var s := CompleteMatches(code, b[..MAXBITS]);
        assert CodeBits(code, s) <= b;
        var x := Matches(code, s, b);
      }
    }
  }

  /** Input may be pulled while no symbol is known. */
  ghost predicate Pulled(code: seq<nat>, input: seq<byte>, r0: Regs, r: Regs)
    requires RegsOk(r0, input)
  {
    && RegsOk(r, input) && Unread(r, input) == Unread(r0, input) && r.ipos >= r0.ipos
    && r.bits - 8 * r.ipos == r0.bits - 8 * r0.ipos && ((r == r0 && Fresh(code, r0)) || Late(code, r))
  }

  /** One more byte, when the symbol is not known yet. */
  method PullForSymbol(ghost code: seq<nat>, input: seq<byte>, ghost r0: Regs, r: Regs) returns (ok: bool, s: Regs)
    requires RegsOk(r0, input) && Pulled(code, input, r0, r) && CodeOk(code) && DecodeSym(code, HeldBits(r)) == NeedMore
    ensures Pulled(code, input, r0, s)
    ensures ok ==> s.ipos == r.ipos + 1 && s.bits == r.bits + 8 && HeldBits(s)[..r.bits] == HeldBits(r)
    ensures !ok ==> s == r && r.ipos == |input|
  {
    hide Unread, DecodeSym, CodeOk, Pow2, Fresh;
    NeedMoreShort(code, HeldBits(r));
    ok, s := PullByte(input, r);
  }

  /** The root entry, once it takes no more bits than are held. */
  method ProbeRoot(codes: array<Code>, at: nat, root: nat, typ: CodeType, ghost code: seq<nat>, input: seq<byte>,
      r0: Regs)
    returns (ok: bool, r: Regs, here: Code)
    requires TableOk(codes[..], at, root, typ, code) && RegsOk(r0, input)
    requires Fresh(code, r0)
    ensures Pulled(code, input, r0, r)
    ensures ok ==> here.bits <= r.bits
    ensures Low(r.hold, root) < Pow2(root) && at + Pow2(root) <= codes.Length && codes[at + Low(r.hold, root)] == here
    ensures !ok ==> r.ipos == |input| && DecodeSym(code, HeldBits(r)) == NeedMore
  {
    hide TableOk, Unread, DecodeSym, CodeOk, Pow2, Late, Fresh;
    TableCode(codes[..], at, root, typ, code);
    TableRange(codes[..], at, root, typ, code);
    r := r0;
    while true
      invariant Pulled(code, input, r0, r)
      decreases |input| - r.ipos
    {
      HoldValue(r, input);
      LinkShape(codes[..], at, root, typ, code, HeldBits(r));
      here := codes[at + Low(r.hold, root)];
      if here.bits <= r.bits { return true, r, here; }
      ProbeDecodes(codes[..], at, root, typ, code, HeldBits(r));
      var got;
      got, r := PullForSymbol(code, input, r0, r);
      if !got { return false, r, here; }
    }
  }

  /** The sub-table entry behind the link last, once the two take no more bits than are held. */
  method ProbeSub(codes: array<Code>, at: nat, root: nat, typ: CodeType, ghost code: seq<nat>, input: seq<byte>,
                  ghost r0: Regs, r1: Regs, last: Code)
    returns (ok: bool, r: Regs, here: Code)
    requires TableOk(codes[..], at, root, typ, code) && RegsOk(r0, input) && Pulled(code, input, r0, r1)
    requires IsLink(typ, last) && last.bits <= r1.bits
    requires Low(r1.hold, root) < Pow2(root) && at + Pow2(root) <= codes.Length
        && codes[at + Low(r1.hold, root)] == last
    ensures Pulled(code, input, r0, r)
    ensures ok ==> Probe(codes[..], at, root, typ, HeldBits(r)) == Found(here, last.bits + here.bits)
    ensures !ok ==> r.ipos == |input| && DecodeSym(code, HeldBits(r)) == NeedMore
  {
    hide TableOk, Unread, DecodeSym, CodeOk, Pow2, Probe, Low, Shr, Late, Fresh;
    TableCode(codes[..], at, root, typ, code);
    r := r1;
    while true
      invariant Pulled(code, input, r0, r) && last.bits <= r.bits
      invariant Low(r.hold, root) < Pow2(root) && codes[at + Low(r.hold, root)] == last
      decreases |input| - r.ipos
    {
      SubProbe(codes[..], at, root, typ, code, input, r, last);
      here := codes[at + last.val + Shr(Low(r.hold, last.bits + last.op), last.bits)];
      if last.bits + here.bits <= r.bits { return true, r, here; }
      ProbeDecodes(codes[..], at, root, typ, code, HeldBits(r));
      var got;
      ghost var q := r;
      got, r := PullForSymbol(code, input, r0, r);
      if !got { return false, r, here; }
      LowKept(q, r, input, root);
    }
  }

  lemma {:induction false} SubProbe(T: seq<Code>, at: nat, root: nat, typ: CodeType, code: seq<nat>,
      input: seq<byte>, r: Regs, last: Code)
    requires TableOk(T, at, root, typ, code) && RegsOk(r, input) && IsLink(typ, last) && last.bits <= r.bits
    requires Low(r.hold, root) < Pow2(root) && at + Pow2(root) <= |T| && T[at + Low(r.hold, root)] == last
    ensures last.bits == root
    ensures var i := at + last.val + Shr(Low(r.hold, last.bits + last.op), last.bits);
            i < |T| &&
            Probe(T, at, root, typ, HeldBits(r)) ==
            if last.bits + T[i].bits <= r.bits then Found(T[i], last.bits + T[i].bits) else More
  {
    hide TableOk, Shr, Low, FromBits;
    HoldValue(r, input);
    LinkShape(T, at, root, typ, code, HeldBits(r));
    SubRange(r.hold, root, last.op);
  }

  /** Look the next symbol up: its last table entry and the bits of its code. */
  method LookUp(codes: array<Code>, at: nat, root: nat, typ: CodeType, ghost code: seq<nat>, input: seq<byte>, r0: Regs)
    returns (ok: bool, r: Regs, here: Code, n: nat)
    requires TableOk(codes[..], at, root, typ, code) && RegsOk(r0, input)
    requires Fresh(code, r0)
    ensures RegsOk(r, input) && Unread(r, input) == Unread(r0, input) && r.ipos >= r0.ipos
    ensures r.bits - 8 * r.ipos == r0.bits - 8 * r0.ipos
    ensures ok ==> n <= r.bits < n + 8
    ensures match DecodeSym(code, Unread(r0, input))
            case Sym(s, m) => ok && SymbolsFit(typ, s + 1) && n == m && here == Entry(typ, s, here.bits)
            case NoCode => ok && n == 1 && here == INVALID
            case NeedMore => !ok && r.ipos == |input|
  {
    hide TableOk, Unread, DecodeSym, CodeOk, Pow2, Low, Late, Fresh;
    n := 0;
    ok, r, here := ProbeRoot(codes, at, root, typ, code, input, r0);
    if ok {
      n := here.bits;
      RootFound(codes[..], at, root, typ, input, r);
      if IsLink(typ, here) {
        var last := here;
        ok, r, here := ProbeSub(codes, at, root, typ, code, input, r0, r, last);
        n := last.bits + here.bits;
      }
    }
    HoldValue(r, input);
    if ok {
      LookedUp(codes[..], at, root, typ, code, input, r0, r, here, n);
      LateBits(codes[..], at, root, typ, code, r, here, n);
    }
  }

  lemma {:induction false} RootFound(T: seq<Code>, at: nat, root: nat, typ: CodeType, input: seq<byte>, r: Regs)
    requires RegsOk(r, input) && at + Pow2(root) <= |T| && Low(r.hold, root) < Pow2(root)
    ensures var e := T[at + Low(r.hold, root)];
            e.bits <= r.bits && !IsLink(typ, e) ==> Probe(T, at, root, typ, HeldBits(r)) == Found(e, e.bits)
  {
    HoldValue(r, input);
  }

  lemma {:induction false} LateBits(T: seq<Code>, at: nat, root: nat, typ: CodeType, code: seq<nat>, r: Regs,
      here: Code, n: nat)
    requires TableOk(T, at, root, typ, code) && (Fresh(code, r) || Late(code, r)) && at + Pow2(root) <= |T|
    requires Probe(T, at, root, typ, HeldBits(r)) == Found(here, n)
    ensures n <= r.bits < n + 8
  {
    hide TableOk, DecodeSym;
    ProbeDecodes(T, at, root, typ, code, HeldBits(r));
    if !Fresh(code, r) && r.bits >= 8 { LateSymbol(code, HeldBits(r), r.bits - 8); }
  }

  lemma {:induction false} TableCode(T: seq<Code>, at: nat, root: nat, typ: CodeType, code: seq<nat>)
    requires TableOk(T, at, root, typ, code)
    ensures CodeOk(code)
  {
  }

  lemma {:induction false} TableRange(T: seq<Code>, at: nat, root: nat, typ: CodeType, code: seq<nat>)
    requires TableOk(T, at, root, typ, code)
    ensures at + Pow2(root) <= |T|
  {
  }

  lemma {:induction false} SubRange(hold: nat, root: nat, op: nat)
    ensures Shr(Low(hold, root + op), root) < Pow2(op)
  {
    ShlShrLow(hold, root + op);
    ShrBound(Low(hold, root + op), op, root);
  }

  /** What a finished lookup means for the bits to come. */
  lemma {:induction false} LookedUp(T: seq<Code>, at: nat, root: nat, typ: CodeType, code: seq<nat>, input: seq<byte>,
                                    r0: Regs, r: Regs, here: Code, n: nat)
    requires TableOk(T, at, root, typ, code) && RegsOk(r0, input) && Pulled(code, input, r0, r)
    requires at + Pow2(root) <= |T| && Probe(T, at, root, typ, HeldBits(r)) == Found(here, n)
    ensures match DecodeSym(code, Unread(r0, input))
            case Sym(s, m) => s < |code| && SymbolsFit(typ, s + 1) && n == m && here == Entry(typ, s, here.bits)
            case NoCode => n == 1 && here == INVALID
            case NeedMore => false
  {
    TableCode(T, at, root, typ, code);
    assert SymbolsFit(typ, |code|);
    HoldValue(r, input);
    var b := HeldBits(r);
    var rest := Unread(r, input)[r.bits..];
    assert Unread(r, input) == b + rest;
    ProbeDecodes(T, at, root, typ, code, b);
    hide TableOk, Probe;
    DecodeExtend(code, b, rest);
  }
}
