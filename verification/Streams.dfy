/** A whole DEFLATE stream: blocks one after the other, the last one padded to a byte boundary.
    What the encoder has sent is such a stream, and decoding it gives the bytes its blocks
    stand for. */
module Streams {
  import opened Bits
  import opened Blocks
  import CL = CodeLengths
  import R = Rfc1951

  datatype Block = Block(f: Form, last: bool)

  ghost predicate AllOk(bs: seq<Block>) {
    forall i :: 0 <= i < |bs| ==> FormOk(bs[i].f)
  }

  ghost predicate AllReadable(bs: seq<Block>) {
    forall i :: 0 <= i < |bs| ==> Readable(bs[i].f)
  }

  /** No block but perhaps the last one is marked as the last one. */
  ghost predicate Open(bs: seq<Block>) {
    forall i :: 0 <= i < |bs| ==> !bs[i].last
  }

  ghost predicate Closed(bs: seq<Block>) {
    bs != [] && Open(bs[..|bs| - 1]) && bs[|bs| - 1].last
  }

  /** The bits of a block, with the padding that ends the stream. */
  function PaddedBits(b: Block, at: nat): seq<bool>
    requires FormOk(b.f)
  {
    BlockBits(b.f, b.last, at) + if b.last then Padding(at + |BlockBits(b.f, b.last, at)|) else []
  }

  function StreamBits(bs: seq<Block>): seq<bool>
    requires AllOk(bs)
  {
    if bs == [] then []
    else
      var before := StreamBits(bs[..|bs| - 1]);
      before + PaddedBits(bs[|bs| - 1], |before|)
  }

  ghost predicate AllFitIn(bs: seq<Block>)
    decreases |bs|, 0
  {
    bs == [] || (AllFitIn(bs[..|bs| - 1]) && FormFits(bs[|bs| - 1].f, Plain(bs[..|bs| - 1])))
  }

  /** The bytes that the blocks stand for. */
  function Plain(bs: seq<Block>): seq<byte>
    requires AllFitIn(bs)
    decreases |bs|, 1
  {
    if bs == [] then [] else Produced(bs[|bs| - 1].f, Plain(bs[..|bs| - 1]))
  }

  /** One block more. */
  lemma {:induction false} OneMore(bs: seq<Block>, b: Block)
    requires AllOk(bs) && AllFitIn(bs) && FormOk(b.f) && FormFits(b.f, Plain(bs))
    ensures AllOk(bs + [b]) && AllFitIn(bs + [b]) && Plain(bs + [b]) == Produced(b.f, Plain(bs))
    ensures StreamBits(bs + [b]) == StreamBits(bs) + PaddedBits(b, |StreamBits(bs)|)
  {
    hide FormOk, FormFits, BlockBits, Produced;
    assert (bs + [b])[..|bs|] == bs;
  }

  ghost function Start(inp: seq<bool>): R.Cfg {
    R.Cfg(R.Type, false, [], [], [], inp)
  }

  /** What has been sent before the stream is closed can be decoded: whole blocks give exactly
      the bytes they stand for, whatever bits come behind them, as long as whole bytes are read. */
  lemma {:induction false} ReadOpen(bs: seq<Block>, rest: seq<bool>) returns (d: R.Cfg)
    requires AllOk(bs) && AllReadable(bs) && AllFitIn(bs) && Open(bs) && (|StreamBits(bs)| + |rest|) % 8 == 0
    ensures R.Reaches(Start(StreamBits(bs) + rest), d) && d.mode.Type? && !d.last && d.out == Plain(bs) && d.inp == rest
    decreases |bs|
  {
    hide FormOk, FormFits, BlockBits, Produced, R.Reaches, R.Step, Readable;
    if bs == [] {
      assert StreamBits(bs) + rest == rest;
      d := Start(rest);
      TypeReaches(d);
    } else {
      var n := |bs| - 1;
      var front, b := bs[..n], bs[n];
      var x := BlockBits(b.f, b.last, |StreamBits(front)|);
      assert StreamBits(bs) + rest == StreamBits(front) + (x + rest);
      var c := ReadOpen(front, x + rest);
      d := ReadBlock(c, b.f, false, |StreamBits(front)|, rest);
      R.ReachesTrans(Start(StreamBits(bs) + rest), c, d);
    }
  }

  lemma {:induction false} TypeReaches(c: R.Cfg)
    requires c.mode.Type?
    ensures R.Valid(c) && R.Reaches(c, c)
  {
    R.ReachesRefl(c);
  }

  /** A whole stream is decoded to its end, and gives exactly the bytes its blocks stand for. */
  lemma {:induction false} ReadClosed(bs: seq<Block>) returns (d: R.Cfg)
    requires AllOk(bs) && AllReadable(bs) && AllFitIn(bs) && Closed(bs)
    ensures |StreamBits(bs)| % 8 == 0
    ensures R.Reaches(Start(StreamBits(bs)), d) && d.mode.Done? && d.out == Plain(bs) && d.inp == []
  {
    hide FormOk, FormFits, BlockBits, Produced, R.Reaches, R.Step, Readable;
    var n := |bs| - 1;
    var front, b := bs[..n], bs[n];
    var at := |StreamBits(front)|;
    var x := BlockBits(b.f, true, at);
    var pad := Padding(at + |x|);
    assert StreamBits(bs) == StreamBits(front) + (x + pad);
    var c := ReadOpen(front, x + pad);
    var e := ReadBlock(c, b.f, true, at, pad);
    LastStep(e);
    d := R.Went(e);
    R.ReachesTrans(Start(StreamBits(bs)), c, e);
    R.ReachesTrans(Start(StreamBits(bs)), e, d);
  }

  lemma {:induction false} LastStep(c: R.Cfg)
    requires c.mode.Type? && c.last && |c.inp| < 8
    ensures R.Valid(c) && R.Step(c) == R.Some(c.(mode := R.Done, inp := []))
  {
    R.StepCases(c);
    assert R.Aligned(c.inp) == [];
  }

  // ---- streams that follow one another ----

  /** Where a block starts matters only within its byte. */
  lemma {:induction false} BlockPlace(b: Block, m: nat, n: nat)
    requires FormOk(b.f) && m % 8 == n % 8
    ensures BlockBits(b.f, b.last, m) == BlockBits(b.f, b.last, n) && PaddedBits(b, m) == PaddedBits(b, n)
  {
    hide FormOk, BlockBits, Padding;
    FormPlace(b.f, b.last, m, n);
    var k := |BlockBits(b.f, b.last, m)|;
    SamePadding(m + k, n + k);
  }

  lemma {:induction false} FormPlace(f: Form, last: bool, m: nat, n: nat)
    requires FormOk(f) && m % 8 == n % 8
    ensures BlockBits(f, last, m) == BlockBits(f, last, n)
  {
    hide FormOk, ToBits, BytesBits, BodyBits, StaticL, StaticD, CL.TreesBits, Padding;
    SamePadding(m + 3, n + 3);
  }

  lemma {:induction false} SamePadding(m: nat, n: nat)
    requires m % 8 == n % 8
    ensures Padding(m) == Padding(n)
  {
  }

  /** Blocks behind whole bytes are as bits what they are by themselves. */
  lemma {:induction false} StreamSplit(a: seq<Block>, b: seq<Block>)
    requires AllOk(a) && AllOk(b) && |StreamBits(a)| % 8 == 0
    ensures AllOk(a + b) && StreamBits(a + b) == StreamBits(a) + StreamBits(b)
    decreases |b|
  {
    hide FormOk, BlockBits, PaddedBits;
    if b == [] {
      assert a + b == a;
    } else {
      var n := |b| - 1;
      StreamSplit(a, b[..n]);
      assert a + b == a + b[..n] + [b[n]];
      OneBlockMore(a + b[..n], b[n]);
      OneBlockMore(b[..n], b[n]);
      assert b == b[..n] + [b[n]];
      BlockPlace(b[n], |StreamBits(a)| + |StreamBits(b[..n])|, |StreamBits(b[..n])|);
    }
  }

  lemma {:induction false} OneBlockMore(a: seq<Block>, b: Block)
    requires AllOk(a) && FormOk(b.f)
    ensures AllOk(a + [b]) && StreamBits(a + [b]) == StreamBits(a) + PaddedBits(b, |StreamBits(a)|)
  {
    hide FormOk, PaddedBits;
    assert (a + [b])[..|a|] == a;
  }
}
