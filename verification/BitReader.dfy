/** The input side of inflate (inflate.c): the bit accumulator hold, with bits valid bits,
    fed from the input one byte at a time. */
module BitReader {
  import opened Bits
  import R = Rfc1951

  // ---- the bit accumulator ----

  lemma {:induction false} PullBits(hold: nat, bits: nat, v: byte)
    requires hold < Pow2(bits)
    ensures hold + Shl(v, bits) < Pow2(bits + 8)
    ensures ToBits(hold + Shl(v, bits), bits + 8) == ToBits(hold, bits) + ToBits(v, 8)
  {
    var x := ToBits(hold, bits) + ToBits(v, 8);
    assert Pow2(8) == 256;
    FromBitsConcat(ToBits(hold, bits), ToBits(v, 8));
    FromToBits(hold, bits);
    FromToBits(v, 8);
    LowSmall(hold, bits);
    LowSmall(v, 8);
    ToFromBits(x);
  }

  lemma {:induction false} PullInput(hold: nat, bits: nat, input: seq<byte>, i: nat)
    requires hold < Pow2(bits) && i < |input|
    ensures hold + Shl(input[i], bits) < Pow2(bits + 8)
    ensures ToBits(hold + Shl(input[i], bits), bits + 8)[..bits] == ToBits(hold, bits)
    ensures ToBits(hold + Shl(input[i], bits), bits + 8) + BytesBits(input[i + 1..]) == ToBits(hold, bits)
        + BytesBits(input[i..])
  {
    hide Pow2, Shl, ToBits;
    PullBits(hold, bits, input[i]);
    var rest := input[i..];
    assert rest[1..] == input[i + 1..];
    assert BytesBits(rest) == ToBits(rest[0], 8) + BytesBits(rest[1..]);
    var h := ToBits(hold, bits);
    assert (h + ToBits(input[i], 8)) + BytesBits(rest[1..]) == h + (ToBits(input[i], 8) + BytesBits(rest[1..]));
  }

  lemma {:induction false} ReadBits(hold: nat, bits: nat, n: nat)
    requires n <= bits
    ensures Low(hold, n) == FromBits(ToBits(hold, bits)[..n])
    ensures ToBits(Shr(hold, n), bits - n) == ToBits(hold, bits)[n..]
    ensures hold < Pow2(bits) ==> Shr(hold, n) < Pow2(bits - n)
  {
    ToBitsSplit(hold, n, bits - n);
    FromToBits(hold, n);
    assert ToBits(hold, bits) == ToBits(hold, n) + ToBits(Shr(hold, n), bits - n);
    if hold < Pow2(bits) { ShrBound(hold, bits - n, n); }
  }

  /** The registers of inflate that take input: the bit accumulator, and the next byte. */
  datatype Regs = Regs(hold: nat, bits: nat, ipos: nat)

  ghost predicate RegsOk(r: Regs, input: seq<byte>) {
    r.hold < Pow2(r.bits) && r.bits <= 32 && r.ipos <= |input|
  }

  ghost function HeldBits(r: Regs): seq<bool> {
    ToBits(r.hold, r.bits)
  }

  /** The bits held, and then those of the input not yet taken. */
  ghost function Unread(r: Regs, input: seq<byte>): (b: seq<bool>)
    requires r.ipos <= |input|
    ensures |b| == r.bits + 8 * (|input| - r.ipos)
  {
    ToBits(r.hold, r.bits) + BytesBits(input[r.ipos..])
  }

  /** Take a byte of input into the accumulator. */
  method PullByte(input: seq<byte>, r0: Regs) returns (ok: bool, r: Regs)
    requires RegsOk(r0, input) && r0.bits <= 24
    ensures RegsOk(r, input) && Unread(r, input) == Unread(r0, input)
    ensures ok ==> r.ipos == r0.ipos + 1 && r.bits == r0.bits + 8 && HeldBits(r)[..r0.bits] == HeldBits(r0)
    ensures !ok ==> r == r0 && r.ipos == |input|
  {
    if r0.ipos == |input| { return false, r0; }
    PullInput(r0.hold, r0.bits, input, r0.ipos);
    return true, Regs(r0.hold + Shl(input[r0.ipos], r0.bits), r0.bits + 8, r0.ipos + 1);
  }

  /** Take input until n bits are held, or none is left. */
  method NeedBits(input: seq<byte>, r0: Regs, n: nat) returns (ok: bool, r: Regs)
    requires RegsOk(r0, input) && (n <= 25 || (n == 32 && r0.bits % 8 == 0))
    ensures RegsOk(r, input) && Unread(r, input) == Unread(r0, input) && r.ipos >= r0.ipos
    ensures ok ==> r.bits >= n && r.bits == if r0.bits >= n then r0.bits else n + (r0.bits - n) % 8
    ensures !ok ==> r.ipos == |input| && r.bits < n
  {
    hide Unread, Pow2;
    r := r0;
    while r.bits < n
      invariant RegsOk(r, input) && Unread(r, input) == Unread(r0, input) && r.ipos >= r0.ipos
      invariant r.bits - 8 * r.ipos == r0.bits - 8 * r0.ipos
      invariant r.bits == r0.bits || r.bits < n + 8
      decreases |input| - r.ipos
    {
      var got;
      got, r := PullByte(input, r);
      if !got { return false, r; }
    }
    return true, r;
  }

  /** BITS(n): what the n low bits held say about the bits to come. */
  lemma {:induction false} PeekHold(r: Regs, input: seq<byte>, n: nat)
    requires RegsOk(r, input) && n <= r.bits
    ensures Low(r.hold, n) == R.Peek(Unread(r, input), n)
  {
    ReadBits(r.hold, r.bits, n);
    assert Unread(r, input)[..n] == ToBits(r.hold, r.bits)[..n];
  }

  /** DROPBITS(n) */
  function DropBits(r: Regs, n: nat): Regs
    requires n <= r.bits
  {
    Regs(Shr(r.hold, n), r.bits - n, r.ipos)
  }

  lemma {:induction false} Dropped(r: Regs, input: seq<byte>, n: nat)
    requires RegsOk(r, input) && n <= r.bits
    ensures RegsOk(DropBits(r, n), input) && Unread(DropBits(r, n), input) == Unread(r, input)[n..]
    ensures HeldBits(DropBits(r, n)) == HeldBits(r)[n..]
  {
    ReadBits(r.hold, r.bits, n);
  }

  /** A field of n bits, taken off the stream. */
  method TakeBits(input: seq<byte>, r0: Regs, n: nat) returns (v: nat, r: Regs)
    requires RegsOk(r0, input) && n <= r0.bits
    ensures RegsOk(r, input) && v == R.Peek(Unread(r0, input), n) && Unread(r, input) == Unread(r0, input)[n..]
    ensures r.bits == r0.bits - n && r.ipos == r0.ipos
  {
    PeekHold(r0, input, n);
    Dropped(r0, input, n);
    v, r := Low(r0.hold, n), DropBits(r0, n);
  }

  /** Extra bits, when there are any: NEEDBITS, BITS and DROPBITS. */
  method ExtraBits(input: seq<byte>, r0: Regs, extra: nat) returns (ok: bool, v: nat, r: Regs)
    requires RegsOk(r0, input) && extra <= 15
    ensures RegsOk(r, input) && r.ipos >= r0.ipos && (ok <==> |Unread(r0, input)| >= extra)
    ensures ok ==> v == R.Peek(Unread(r0, input), extra) && Unread(r, input) == Unread(r0, input)[extra..]
    ensures ok && (r0.bits < 8 || r0.bits < extra) ==> r.bits < 8
    ensures !ok ==> r.ipos == |input| && Unread(r, input) == Unread(r0, input)
    ensures r.bits + 8 * (|input| - r.ipos) <= r0.bits + 8 * (|input| - r0.ipos)
  {
    hide Unread, R.Peek;
    ok, v, r := true, 0, r0;
    if extra != 0 {
      ok, r := NeedBits(input, r0, extra);
      if ok { v, r := TakeBits(input, r, extra); }
    } else {
      NoBitsAhead(Unread(r0, input));
    }
  }

  lemma {:induction false} NoBitsAhead(b: seq<bool>)
    ensures R.Peek(b, 0) == 0 && b[0..] == b
  {
  }

  /** BYTEBITS(): go to a byte boundary. */
  method ByteBits(input: seq<byte>, r0: Regs) returns (r: Regs)
    requires RegsOk(r0, input)
    ensures RegsOk(r, input) && r.bits == r0.bits - r0.bits % 8 && r.bits % 8 == 0 && r.ipos == r0.ipos
    ensures Unread(r, input) == R.Aligned(Unread(r0, input)) == R.Aligned(Unread(r, input))
  {
    hide Pow2, ToBits, BytesBits, R.Aligned;
    var k := r0.bits % 8;
    Dropped(r0, input, k);
    AlignedBehind(HeldBits(r0), BytesBits(input[r0.ipos..]));
    r := DropBits(r0, k);
  }

  /** With whole bytes behind the bits held, a byte boundary is one among the bits held. */
  lemma {:induction false} AlignedBehind(held: seq<bool>, rest: seq<bool>)
    requires |rest| % 8 == 0
    ensures R.Aligned(held + rest) == (held + rest)[|held| % 8..] == R.Aligned((held + rest)[|held| % 8..])
  {
    SameRemainder(|held|, |rest|);
    var b := held + rest;
    var c := b[|held| % 8..];
    assert |c| % 8 == 0;
    assert c[0..] == c;
  }

  lemma {:induction false} SameRemainder(m: nat, n: nat)
    requires n % 8 == 0
    ensures (m + n) % 8 == m % 8
  {
  }

  /** The low bits do not change when a byte is added above them. */
  lemma {:induction false} LowKept(r: Regs, s: Regs, input: seq<byte>, n: nat)
    requires RegsOk(r, input) && RegsOk(s, input) && n <= r.bits <= s.bits && HeldBits(s)[..r.bits] == HeldBits(r)
    ensures Low(s.hold, n) == Low(r.hold, n)
  {
    ReadBits(r.hold, r.bits, n);
    ReadBits(s.hold, s.bits, n);
    assert HeldBits(s)[..n] == HeldBits(s)[..r.bits][..n];
  }

  lemma {:induction false} HoldValue(r: Regs, input: seq<byte>)
    requires RegsOk(r, input)
    ensures FromBits(HeldBits(r)) == r.hold && |HeldBits(r)| == r.bits && HeldBits(r) <= Unread(r, input)
    ensures r.ipos == |input| ==> HeldBits(r) == Unread(r, input)
  {
    FromToBits(r.hold, r.bits);
    LowSmall(r.hold, r.bits);
    if r.ipos == |input| { assert input[r.ipos..] == []; }
  }
}
