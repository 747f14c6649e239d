/** What the compressor owes its input: the blocks sent, and the tokens of the block at work,
    stand for exactly the input up to some position. */
module Covers {
  import opened Bits
  import opened Blocks
  import opened Streams
  import opened Lz77
  import Hash
  import R = Rfc1951

  /** The blocks sent stand for the input up to from, and with the tokens for that up to upto. */
  ghost predicate Stands(sent: seq<Block>, ts: seq<Token>, done: seq<byte>, from: nat, upto: nat) {
    && from <= upto <= |done| && AllOk(sent) && AllFitIn(sent) && Plain(sent) == done[..from]
    && AllFit(done[..from], ts) && ApplyAll(done[..from], ts) == done[..upto]
  }

  lemma {:induction false} CoverMore(out: seq<byte>, ts: seq<Token>, t: Token)
    requires AllFit(out, ts) && Fits(ApplyAll(out, ts), t)
    ensures AllFit(out, ts + [t]) && ApplyAll(out, ts + [t]) == Apply(ApplyAll(out, ts), t)
  {
    hide Fits, Apply;
    assert (ts + [t])[..|ts|] == ts;
  }

  lemma {:induction false} StandNothing()
    ensures Stands([], [], [], 0, 0) && StreamBits([]) == []
  {
    var none: seq<byte> := [];
    assert none[..0] == none;
  }

  /** A literal is the next byte. */
  lemma {:induction false} StandLiteral(sent: seq<Block>, ts: seq<Token>, done: seq<byte>, from: nat, upto: nat)
    requires Stands(sent, ts, done, from, upto) && upto < |done|
    ensures Stands(sent, ts + [Literal(done[upto])], done, from, upto + 1)
  {
    hide AllOk, AllFitIn, Plain, AllFit, ApplyAll;
    CoverMore(done[..from], ts, Literal(done[upto]));
    assert done[..upto] + [done[upto]] == done[..upto + 1];
  }

  /** A match stands for the bytes it was found for. */
  lemma {:induction false} StandMatch(sent: seq<Block>, ts: seq<Token>, done: seq<byte>, from: nat, upto: nat,
      d: nat, k: nat)
    requires Stands(sent, ts, done, from, upto) && Real(done, 0, upto, d, k) && Hash.MIN_MATCH <= k <= MAX_MATCH
        && d <= 32768
    ensures Stands(sent, ts + [Match(k, d)], done, from, upto + k)
  {
    hide AllOk, AllFitIn, Plain, AllFit, ApplyAll;
    CoverMore(done[..from], ts, Match(k, d));
    var r := done[..upto + k];
    forall i | upto <= i < |r| ensures r[i] == r[i - d] {
      assert SameAt(done, upto - d, upto, i - upto);
    }
    assert r[..upto] == done[..upto];
    R.ExtendIs(done[..upto], d, k, r);
  }

  /** More input does not matter. */
  lemma {:induction false} StandRead(sent: seq<Block>, ts: seq<Token>, done: seq<byte>, more: seq<byte>, from: nat,
      upto: nat)
    requires Stands(sent, ts, done, from, upto) && done <= more
    ensures Stands(sent, ts, more, from, upto)
  {
    assert more[..from] == done[..from] && more[..upto] == done[..upto];
  }

  /** A block that stands for the tokens, or for the bytes as they are. */
  ghost predicate Carries(f: Form, ts: seq<Token>, bytes: seq<byte>) {
    match f
    case Stored(b) => b == bytes
    case Static(t) => t == ts
    case Dynamic(t, ll, dl, bl, n) => t == ts
  }

  /** Once the block is sent, the blocks sent stand for everything. */
  lemma {:induction false} StandBlock(sent: seq<Block>, ts: seq<Token>, done: seq<byte>, from: nat, upto: nat,
      f: Form, last: bool)
    requires Stands(sent, ts, done, from, upto) && FormOk(f) && Carries(f, ts, done[from..upto])
    ensures Stands(sent + [Block(f, last)], [], done, upto, upto)
    ensures StreamBits(sent + [Block(f, last)]) == StreamBits(sent) + PaddedBits(Block(f, last), |StreamBits(sent)|)
  {
    hide AllOk, AllFitIn, Plain, FormOk;
    assert done[..from] + done[from..upto] == done[..upto];
    OneMore(sent, Block(f, last));
    assert AllFit(done[..upto], []);
  }

  /** Stored bytes are the next ones. */
  lemma {:induction false} StandStored(sent: seq<Block>, done: seq<byte>, p: nat, n: nat, last: bool)
    requires Stands(sent, [], done, p, p) && p + n <= |done| && n <= 0xffff
    ensures var b := Block(Stored(done[p..p + n]), last);
            Stands(sent + [b], [], done, p + n, p + n) && FormOk(b.f)
            && StreamBits(sent + [b]) == StreamBits(sent) + PaddedBits(b, |StreamBits(sent)|)
  {
    hide AllOk, AllFitIn, Plain;
    assert done[..p] + done[p..p + n] == done[..p + n];
    OneMore(sent, Block(Stored(done[p..p + n]), last));
    assert AllFit(done[..p + n], []);
  }

  lemma {:induction false} StandPrefix(sent: seq<Block>, full: seq<byte>, done: seq<byte>, p: nat)
    requires Stands(sent, [], full, p, p) && done <= full && p <= |done|
    ensures Stands(sent, [], done, p, p)
  {
    hide AllOk, AllFitIn, Plain;
    assert done[..p] == full[..p];
  }

  // ---- from the restart points on as well ----

  /** A place at which decoding can start afresh: behind so many blocks, and so much input. */
  datatype Mark = Mark(cut: nat, pos: nat)

  /** The blocks before the mark are whole bytes and stand for the input before it, and those behind it
      stand, by themselves, for the input behind it. */
  ghost predicate Restarts(k: Mark, sent: seq<Block>, ts: seq<Token>, done: seq<byte>, from: nat, upto: nat) {
    && k.cut <= |sent| && k.pos <= from <= upto <= |done| && Open(sent[..k.cut])
    && Stands(sent[..k.cut], [], done, k.pos, k.pos) && |StreamBits(sent[..k.cut])| % 8 == 0
    && Stands(sent[k.cut..], ts, done[k.pos..], from - k.pos, upto - k.pos)
  }

  /** The blocks and tokens stand for the input, from its beginning and from every mark. */
  ghost predicate Covered(marks: seq<Mark>, sent: seq<Block>, ts: seq<Token>, done: seq<byte>, from: nat, upto: nat) {
    && Stands(sent, ts, done, from, upto)
    && forall i :: 0 <= i < |marks| ==> Restarts(marks[i], sent, ts, done, from, upto)
  }

  /** No match reaches back beyond a mark. */
  ghost predicate Below(marks: seq<Mark>, floor: nat) {
    forall i :: 0 <= i < |marks| ==> marks[i].pos <= floor
  }

  lemma {:induction false} CoverNothing()
    ensures Covered([], [], [], [], 0, 0) && StreamBits([]) == []
  {
    StandNothing();
  }

  /** What is covered is within the input, and stands for its beginning. */
  lemma {:induction false} CoverRange(marks: seq<Mark>, sent: seq<Block>, ts: seq<Token>, done: seq<byte>, from: nat,
      upto: nat)
    requires Covered(marks, sent, ts, done, from, upto)
    ensures from <= upto <= |done| && AllOk(sent) && Stands(sent, ts, done, from, upto)
  {
    hide Restarts, AllFitIn, Plain, AllFit, ApplyAll, AllOk;
  }

  lemma {:induction false} CoverLiteral(marks: seq<Mark>, sent: seq<Block>, ts: seq<Token>, done: seq<byte>, from: nat,
      upto: nat)
    requires Covered(marks, sent, ts, done, from, upto) && upto < |done|
    ensures Covered(marks, sent, ts + [Literal(done[upto])], done, from, upto + 1)
  {
    hide Stands, StreamBits;
    StandLiteral(sent, ts, done, from, upto);
    forall i | 0 <= i < |marks|
      ensures Restarts(marks[i], sent, ts + [Literal(done[upto])], done, from, upto + 1)
    {
      var k := marks[i];
      assert Restarts(k, sent, ts, done, from, upto);
      StandLiteral(sent[k.cut..], ts, done[k.pos..], from - k.pos, upto - k.pos);
      assert done[k.pos..][upto - k.pos] == done[upto];
    }
  }

  lemma {:induction false} CoverMatch(marks: seq<Mark>, floor: nat, sent: seq<Block>, ts: seq<Token>, done: seq<byte>,
      from: nat, upto: nat, d: nat, k: nat)
    requires Covered(marks, sent, ts, done, from, upto) && Below(marks, floor) && Real(done, floor, upto, d, k)
    requires Hash.MIN_MATCH <= k <= MAX_MATCH && d <= 32768
    ensures Covered(marks, sent, ts + [Match(k, d)], done, from, upto + k)
  {
    hide Stands, StreamBits;
    StandMatch(sent, ts, done, from, upto, d, k);
    forall i | 0 <= i < |marks|
      ensures Restarts(marks[i], sent, ts + [Match(k, d)], done, from, upto + k)
    {
      var q := marks[i];
      assert Restarts(q, sent, ts, done, from, upto);
      RealBehind(done, floor, upto, d, k, q.pos);
      StandMatch(sent[q.cut..], ts, done[q.pos..], from - q.pos, upto - q.pos, d, k);
    }
  }

  /** A match is one in the input behind a place that it does not reach back beyond. */
  lemma {:induction false} RealBehind(done: seq<byte>, floor: nat, a: nat, d: nat, k: nat, p: nat)
    requires Real(done, floor, a, d, k) && p <= floor
    ensures p <= a && Real(done[p..], 0, a - p, d, k)
  {
    var more, b, c := done[p..], a - p - d, a - p;
    forall i: nat | i < k
      ensures SameAt(more, b, c, i)
    {
      assert SameAt(done, a - d, a, i);
    }
  }

  lemma {:induction false} CoverRead(marks: seq<Mark>, sent: seq<Block>, ts: seq<Token>, done: seq<byte>,
      more: seq<byte>, from: nat, upto: nat)
    requires Covered(marks, sent, ts, done, from, upto) && done <= more
    ensures Covered(marks, sent, ts, more, from, upto)
  {
    hide Stands, StreamBits;
    StandRead(sent, ts, done, more, from, upto);
    forall i | 0 <= i < |marks|
      ensures Restarts(marks[i], sent, ts, more, from, upto)
    {
      var k := marks[i];
      assert Restarts(k, sent, ts, done, from, upto);
      var none: seq<Token> := [];
      StandRead(sent[..k.cut], none, done, more, k.pos, k.pos);
      assert done[k.pos..] <= more[k.pos..];
      StandRead(sent[k.cut..], ts, done[k.pos..], more[k.pos..], from - k.pos, upto - k.pos);
    }
  }

  lemma {:induction false} CoverBlock(marks: seq<Mark>, sent: seq<Block>, ts: seq<Token>, done: seq<byte>, from: nat,
      upto: nat, f: Form, last: bool)
    requires Covered(marks, sent, ts, done, from, upto) && FormOk(f) && upto <= |done| && from <= upto
    requires Carries(f, ts, done[from..upto])
    ensures Covered(marks, sent + [Block(f, last)], [], done, upto, upto)
    ensures AllOk(sent) && AllOk(sent + [Block(f, last)])
    ensures StreamBits(sent + [Block(f, last)]) == StreamBits(sent) + PaddedBits(Block(f, last), |StreamBits(sent)|)
  {
    hide Stands, StreamBits, Carries, FormOk, Restarts;
    CoverRange(marks, sent, ts, done, from, upto);
    StandBlock(sent, ts, done, from, upto, f, last);
    StandsOk(sent + [Block(f, last)], [], done, upto, upto);
    forall i | 0 <= i < |marks|
      ensures Restarts(marks[i], sent + [Block(f, last)], [], done, upto, upto)
    {
      RestartBlock(marks[i], sent, ts, done, from, upto, f, last);
    }
  }

  lemma {:induction false} RestartBlock(k: Mark, sent: seq<Block>, ts: seq<Token>, done: seq<byte>, from: nat,
      upto: nat, f: Form, last: bool)
    requires from <= upto <= |done| && FormOk(f) && Carries(f, ts, done[from..upto])
    requires Restarts(k, sent, ts, done, from, upto)
    ensures Restarts(k, sent + [Block(f, last)], [], done, upto, upto)
  {
    hide Stands, StreamBits, Carries, FormOk, Open, PaddedBits;
    SliceBehind(done, k.pos, from, upto);
    StandBlock(sent[k.cut..], ts, done[k.pos..], from - k.pos, upto - k.pos, f, last);
    CutMore(sent, Block(f, last), k.cut);
  }

  lemma {:induction false} CutMore(sent: seq<Block>, b: Block, cut: nat)
    requires cut <= |sent|
    ensures (sent + [b])[cut..] == sent[cut..] + [b] && (sent + [b])[..cut] == sent[..cut]
  {
  }

  lemma {:induction false} SliceBehind(done: seq<byte>, p: nat, from: nat, upto: nat)
    requires p <= from <= upto <= |done|
    ensures done[p..][from - p..upto - p] == done[from..upto]
  {
  }

  lemma {:induction false} StandsOk(sent: seq<Block>, ts: seq<Token>, done: seq<byte>, from: nat, upto: nat)
    requires Stands(sent, ts, done, from, upto)
    ensures AllOk(sent) && from <= upto <= |done|
  {
    hide AllOk, AllFitIn, Plain, AllFit, ApplyAll;
  }

  lemma {:induction false} CoverStored(marks: seq<Mark>, sent: seq<Block>, done: seq<byte>, p: nat, n: nat, last: bool)
    requires Covered(marks, sent, [], done, p, p) && p + n <= |done| && n <= 0xffff
    ensures var b := Block(Stored(done[p..p + n]), last);
            && Covered(marks, sent + [b], [], done, p + n, p + n) && FormOk(b.f) && AllOk(sent) && AllOk(sent + [b])
            && StreamBits(sent + [b]) == StreamBits(sent) + PaddedBits(b, |StreamBits(sent)|)
  {
    hide Stands, StreamBits, Restarts, FormOk;
    var b := Block(Stored(done[p..p + n]), last);
    CoverRange(marks, sent, [], done, p, p);
    StandStored(sent, done, p, n, last);
    StandsOk(sent + [b], [], done, p + n, p + n);
    forall i | 0 <= i < |marks|
      ensures Restarts(marks[i], sent + [b], [], done, p + n, p + n)
    {
      RestartStored(marks[i], sent, done, p, n, last);
    }
  }

  lemma {:induction false} RestartStored(k: Mark, sent: seq<Block>, done: seq<byte>, p: nat, n: nat, last: bool)
    requires Restarts(k, sent, [], done, p, p) && p + n <= |done| && n <= 0xffff
    ensures Restarts(k, sent + [Block(Stored(done[p..p + n]), last)], [], done, p + n, p + n)
  {
    hide Stands, StreamBits, Open, PaddedBits;
    var b := Block(Stored(done[p..p + n]), last);
    var q := p - k.pos;
    SliceBehind(done, k.pos, p, p + n);
    StandStored(sent[k.cut..], done[k.pos..], q, n, last);
    CutMore(sent, b, k.cut);
  }

  lemma {:induction false} CoverPrefix(marks: seq<Mark>, sent: seq<Block>, full: seq<byte>, done: seq<byte>, p: nat)
    requires Covered(marks, sent, [], full, p, p) && done <= full && p <= |done|
    ensures Covered(marks, sent, [], done, p, p)
  {
    hide Stands, StreamBits;
    StandPrefix(sent, full, done, p);
    forall i | 0 <= i < |marks|
      ensures Restarts(marks[i], sent, [], done, p, p)
    {
      var k := marks[i];
      assert Restarts(k, sent, [], full, p, p);
      StandPrefix(sent[..k.cut], full, done, k.pos);
      assert done[k.pos..] <= full[k.pos..];
      StandPrefix(sent[k.cut..], full[k.pos..], done[k.pos..], p - k.pos);
    }
  }

  /** At a byte boundary, with all input in blocks, there may be a mark. */
  lemma {:induction false} CoverMark(marks: seq<Mark>, sent: seq<Block>, done: seq<byte>)
    requires Covered(marks, sent, [], done, |done|, |done|) && AllOk(sent) && |StreamBits(sent)| % 8 == 0 && Open(sent)
    ensures Covered(marks + [Mark(|sent|, |done|)], sent, [], done, |done|, |done|)
  {
    hide Stands, StreamBits, Restarts;
    var k := Mark(|sent|, |done|);
    assert sent[..|sent|] == sent && sent[|sent|..] == [] && done[|done|..] == [];
    StandNothing();
    RestartsHere(sent, done);
    forall i | 0 <= i < |marks + [k]|
      ensures Restarts((marks + [k])[i], sent, [], done, |done|, |done|)
    {
      if i < |marks| { assert Restarts(marks[i], sent, [], done, |done|, |done|); }
    }
  }

  lemma {:induction false} RestartsHere(sent: seq<Block>, done: seq<byte>)
    requires Stands(sent, [], done, |done|, |done|) && AllOk(sent) && |StreamBits(sent)| % 8 == 0 && Open(sent)
    ensures Restarts(Mark(|sent|, |done|), sent, [], done, |done|, |done|)
  {
    hide Stands, StreamBits;
    assert sent[..|sent|] == sent && sent[|sent|..] == [] && done[|done|..] == [];
    StandNothing();
  }

  // ---- what the blocks may take ----

  /** So many bits for each byte, something for the blocks that stand for none, and the last
      block. */
  ghost predicate Lean(sent: seq<Block>, from: int, credit: nat) {
    AllOk(sent) && |StreamBits(sent)| <= 95 * from + credit + if Closed(sent) then 64 else 0
  }

  lemma {:induction false} LeanNothing()
    ensures Lean([], 0, 0)
  {
  }

  /** A block more. */
  lemma {:induction false} LeanMore(sent: seq<Block>, b: Block, from: int, n: nat, credit: nat, more: nat)
    requires Lean(sent, from, credit) && Open(sent) && FormOk(b.f) && AllOk(sent + [b])
    requires StreamBits(sent + [b]) == StreamBits(sent) + PaddedBits(b, |StreamBits(sent)|)
    requires |BlockBits(b.f, b.last, |StreamBits(sent)|)| <= 95 * n + more + if b.last then 57 else 0
    ensures Lean(sent + [b], from + n, credit + more)
  {
    hide StreamBits, BlockBits, FormOk;
    assert (sent + [b])[..|sent|] == sent;
  }

  /** There are at least as many bytes as tokens. */
  lemma {:induction false} BytesOfTokens(out: seq<byte>, ts: seq<Token>)
    requires AllFit(out, ts)
    ensures |ApplyAll(out, ts)| >= |out| + |ts|
    decreases |ts|
  {
    if ts != [] { BytesOfTokens(out, ts[..|ts| - 1]); }
  }

  /** A match still to be sent stays a match when the window slides, even one that starts at
      the byte just before the window. */
  lemma {:induction false} SlidDistance(s: nat, m: nat, w: nat)
    requires m < U32 && w < s < U32
    ensures Sub32(s - w - 1, Sub32(m, w)) == Sub32(s - 1, m)
  {
  }
}
