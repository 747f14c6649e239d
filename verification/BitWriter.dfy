/** The output side of deflate (deflate.h, trees.c): a buffer of pending bytes, and sixteen
    bits that are not yet in it. */
module BitWriter {
  import opened Bits

  const BUF_SIZE: nat := 16

  /** Sixteen bits of v << n. */
  function Shl16(v: nat, n: nat): nat {
    Low(Shl(v, n), BUF_SIZE)
  }

  lemma {:induction false} AddBits(buf: nat, valid: nat, v: nat, n: nat)
    requires buf < Pow2(valid) && v < Pow2(n)
    ensures buf + Shl(v, valid) < Pow2(valid + n)
    ensures ToBits(buf + Shl(v, valid), valid + n) == ToBits(buf, valid) + ToBits(v, n)
  {
    var x := ToBits(buf, valid) + ToBits(v, n);
    FromBitsConcat(ToBits(buf, valid), ToBits(v, n));
    FromToBits(buf, valid);
    FromToBits(v, n);
    LowSmall(buf, valid);
    LowSmall(v, n);
    ToFromBits(x);
  }

  /** What goes into the buffer, and what is left over, when value does not fit. */
  lemma {:induction false} Spill(buf: nat, valid: nat, v: nat, n: nat)
    requires buf < Pow2(valid) && v < Pow2(n) && valid <= 16 <= valid + n
    ensures buf + Shl16(v, valid) < Pow2(16) && Shr(v, 16 - valid) < Pow2(valid + n - 16)
    ensures ToBits(buf + Shl16(v, valid), 16) + ToBits(Shr(v, 16 - valid), valid + n - 16) == ToBits(buf, valid)
        + ToBits(v, n)
  {
    hide ToBits, Shl, Shr, Low;
    var k := 16 - valid;
    ToBitsSplit(v, k, n - k);
    ShlShrLow(v, k);
    LowShl(v, valid, k);
    AddBits(buf, valid, Low(v, k), k);
    ToBitsLow(v, k);
    ShrBound(v, n - k, k);
    assert ToBits(buf, valid) + ToBits(v, n) == (ToBits(buf, valid) + ToBits(v, k)) + ToBits(Shr(v, k), n - k);
  }

  lemma {:induction false} LowShl(v: nat, m: nat, k: nat)
    ensures Low(Shl(v, m), m + k) == Shl(Low(v, k), m)
    decreases m
  {
    if m > 0 { LowShl(v, m - 1, k); }
  }

  lemma {:induction false} FitsBuf(v: nat, n: nat, valid: nat)
    requires v < Pow2(n) && valid + n <= 16
    ensures Shl16(v, valid) == Shl(v, valid)
  {
    hide Shl, Low;
    var k := 16 - valid;
    LowShl(v, valid, k);
    Pow2Mono(n, k);
    LowSmall(v, k);
  }

  /** Two bytes, low byte first. */
  lemma {:induction false} TwoBytes(w: nat)
    requires w < Pow2(16)
    ensures Low(w, 8) < 256 && Shr(w, 8) < 256 && ToBits(w, 16) == ToBits(Low(w, 8), 8) + ToBits(Shr(w, 8), 8)
  {
    assert Pow2(8) == 256;
    ShlShrLow(w, 8);
    ShrBound(w, 8, 8);
    ToBitsSplit(w, 8, 8);
    ToBitsLow(w, 8);
  }

  lemma {:induction false} ByteStream(s: seq<byte>, v: byte)
    ensures BytesBits(s + [v]) == BytesBits(s) + ToBits(v, 8)
  {
    BytesBitsConcat(s, [v]);
    assert BytesBits([v]) == ToBits(v, 8) + BytesBits([]);
  }

  class Writer {
    const buf: array<byte>      // pending_buf
    var out: nat                // pending_out, as an index
    var pending: nat            // bytes pending from there
    var bi_buf: nat
    var bi_valid: nat
    ghost var gone: seq<byte>   // bytes already taken out of the buffer

    /** Once some of the pending bytes are out, no whole byte of bits is left to put. */
    ghost predicate Valid()
      reads this
    {
      && out + pending <= buf.Length && bi_valid <= BUF_SIZE && bi_buf < Pow2(bi_valid)
      && (out > 0 ==> pending > 0 && bi_valid < 8)
    }

    /** All bits ever sent. */
    ghost function Stream(): (b: seq<bool>)
      requires Valid()
      reads this, buf
      ensures |b| == 8 * |gone| + 8 * pending + bi_valid
    {
      BytesBits(gone) + BytesBits(buf[out..out + pending]) + ToBits(bi_buf, bi_valid)
    }

    constructor (size: nat)
      ensures Valid() && Stream() == [] && fresh(buf) && buf.Length == size && out == 0 && pending == 0
          && bi_valid == 0 && gone == []
    {
      buf := new byte[size](i => 0);
      out, pending, bi_buf, bi_valid, gone := 0, 0, 0, 0, [];
    }

    method PutByte(v: byte)
      requires pending < buf.Length
      modifies buf, `pending
      ensures pending == old(pending) + 1 && buf[..pending] == old(buf[..pending]) + [v]
      ensures forall k :: 0 <= k < buf.Length && k != old(pending) ==> buf[k] == old(buf[k])
    {
      buf[pending] := v;
      pending := pending + 1;
    }

    method PutShort(w: nat)
      requires w < Pow2(16) && pending + 2 <= buf.Length
      modifies buf, `pending
      ensures pending == old(pending) + 2 && BytesBits(buf[..pending]) == old(BytesBits(buf[..pending])) + ToBits(w, 16)
      ensures buf[..old(pending)] == old(buf[..pending])
      ensures forall k :: 0 <= k < buf.Length && !(old(pending) <= k < pending) ==> buf[k] == old(buf[k])
    {
      hide ToBits, BytesBits, Pow2;
      TwoBytes(w);
      ghost var s := buf[..pending];
      PutByte(Low(w, 8));
      ByteStream(s, Low(w, 8));
      PutByte(Shr(w, 8));
      ByteStream(s + [Low(w, 8)], Shr(w, 8));
      assert buf[..pending][..|s|] == s;
    }

    /** Send the length low bits of value. */
    method SendBits(value: nat, length: nat)
      requires Valid() && out == 0 && length <= 16 && value < Pow2(length) && pending + 2 <= buf.Length
      modifies buf, `pending, `bi_buf, `bi_valid
      ensures Valid() && Stream() == old(Stream()) + ToBits(value, length)
      ensures old(pending) <= pending <= old(pending) + 2 && buf[..old(pending)] == old(buf[..pending])
      ensures forall k :: 0 <= k < buf.Length && !(old(pending) <= k < pending) ==> buf[k] == old(buf[k])
    {
      hide ToBits, BytesBits, Pow2, Shr, Shl, Low;
      ghost var g, s := BytesBits(gone), BytesBits(buf[..pending]);
      if bi_valid + length > BUF_SIZE {
        Spill(bi_buf, bi_valid, value, length);
        ghost var b := ToBits(bi_buf, bi_valid);
        var w := bi_buf + Shl16(value, bi_valid);
        PutShort(w);
        bi_buf := Shr(value, BUF_SIZE - bi_valid);
        bi_valid := bi_valid + length - BUF_SIZE;
        assert g + (s + ToBits(w, 16)) + ToBits(bi_buf, bi_valid) == g + s + (ToBits(w, 16) + ToBits(bi_buf, bi_valid));
        assert g + s + (b + ToBits(value, length)) == g + s + b + ToBits(value, length);
      } else {
        FitsBuf(value, length, bi_valid);
        AddBits(bi_buf, bi_valid, value, length);
        ghost var b := ToBits(bi_buf, bi_valid);
        bi_buf := bi_buf + Shl16(value, bi_valid);
        bi_valid := bi_valid + length;
        assert g + s + (b + ToBits(value, length)) == g + s + b + ToBits(value, length);
      }
    }

    /** bi_flush: keep at most seven bits back. */
    method Flush()
      requires Valid() && (out == 0 && bi_valid >= 8 ==> pending + 2 <= buf.Length)
      modifies buf, `pending, `bi_buf, `bi_valid
      ensures Valid() && Stream() == old(Stream()) && bi_valid < 8 && (old(bi_valid) == 0 ==> bi_valid == 0)
      ensures old(out) == 0 ==> pending <= old(pending) + 2 && buf[..old(pending)] == old(buf[..pending])
      ensures old(out) > 0 || old(bi_valid) < 8 ==> pending == old(pending)
    {
      hide ToBits, BytesBits, Pow2, Shr, Shl, Low;
      ghost var g, s, b := BytesBits(gone), BytesBits(buf[out..out + pending]), ToBits(bi_buf, bi_valid);
      if bi_valid == 16 {
        PutShort(bi_buf);
        bi_buf, bi_valid := 0, 0;
        Nothing();
        assert g + (s + b) + [] == g + s + b;
      } else if bi_valid >= 8 {
        LowByte(bi_buf, bi_valid);
        ghost var before := buf[..pending];
        PutByte(Low(bi_buf, 8));
        ByteStream(before, Low(bi_buf, 8));
        bi_buf := Shr(bi_buf, 8);
        bi_valid := bi_valid - 8;
        assert buf[..pending][..|before|] == before;
        assert g + (s + b[..8]) + b[8..] == g + s + b;
      }
    }

    /** flush_pending: take out as many pending bytes as there is room for. Whatever the
        room, the bits sent are the bytes taken out, those pending, and the bits held. */
    method FlushPending(room: nat) returns (bytes: seq<byte>)
      requires Valid() && (out == 0 && bi_valid >= 8 ==> pending + 2 <= buf.Length)
      modifies this, buf
      ensures Valid() && Stream() == old(Stream()) && bi_valid < 8 && (old(bi_valid) == 0 ==> bi_valid == 0)
      ensures gone == old(gone) + bytes && |bytes| <= room
      ensures pending > 0 ==> |bytes| == room
      ensures pending == 0 ==> out == 0
      ensures old(bi_valid) < 8 ==> |bytes| == if old(pending) < room then old(pending) else room
    {
      hide ToBits, BytesBits, Pow2, Shr, Shl, Low;
      Flush();
      var len := pending;
      if len > room { len := room; }
      if len == 0 { return []; }
      bytes := TakeBytes(len);
    }

    /** Take the first len pending bytes out. */
    method TakeBytes(len: nat) returns (bytes: seq<byte>)
      requires Valid() && 0 < len <= pending && bi_valid < 8
      modifies `out, `pending, `gone
      ensures Valid() && Stream() == old(Stream()) && gone == old(gone) + bytes && |bytes| == len
      ensures pending == old(pending) - len && (pending == 0 ==> out == 0)
    {
      hide ToBits, BytesBits, Pow2;
      ghost var all := buf[out..out + pending];
      TakeOut(gone, all, len);
      bytes := buf[out..out + len];
      assert all[..len] == bytes;
      assert all[len..] == buf[out + len..out + pending];
      out := out + len;
      pending := pending - len;
      gone := gone + bytes;
      if pending == 0 { out := 0; }
      assert buf[out..out + pending] == all[len..];
    }

    /** bi_windup: go to a byte boundary. */
    method Windup()
      requires Valid() && out == 0 && pending + 2 <= buf.Length
      modifies buf, `pending, `bi_buf, `bi_valid
      ensures Valid() && bi_valid == 0 && Stream() == old(Stream()) + Zeros((8 - |old(Stream())| % 8) % 8)
      ensures pending <= old(pending) + 2 && buf[..old(pending)] == old(buf[..pending])
    {
      hide ToBits, BytesBits, Pow2, Shr, Shl, Low, Zeros;
      ghost var g, s, b := BytesBits(gone), BytesBits(buf[..pending]), ToBits(bi_buf, bi_valid);
      WholeBytes(|gone| + pending, bi_valid);
      PutHeld();
      bi_buf, bi_valid := 0, 0;
      Nothing();
      Winding(g, s, b, Zeros((16 - |b|) % 8));
    }

    /** The bits held, as whole bytes: zeros fill up the last one. */
    method PutHeld()
      requires bi_valid <= 16 && bi_buf < Pow2(bi_valid) && pending + 2 <= buf.Length
      modifies buf, `pending
      ensures pending <= old(pending) + 2 && pending <= buf.Length && buf[..old(pending)] == old(buf[..pending])
      ensures BytesBits(buf[..pending]) == old(BytesBits(buf[..pending]))
          + (ToBits(bi_buf, bi_valid) + Zeros((16 - bi_valid) % 8))
    {
      hide ToBits, BytesBits, Pow2, Zeros;
      ghost var before := buf[..pending];
      if bi_valid > 8 {
        Padded(bi_buf, bi_valid, 16);
        PutShort(bi_buf);
      } else if bi_valid > 0 {
        Padded(bi_buf, bi_valid, 8);
        SmallByte(bi_buf);
        PutByte(bi_buf);
        ByteStream(before, bi_buf);
        assert buf[..pending][..|before|] == before;
      } else {
        NoZeros();
        Nothing();
        assert BytesBits(before) + ([] + []) == BytesBits(before);
      }
    }

    /** put_short at a byte boundary. */
    method PutWord(v: nat)
      requires Valid() && out == 0 && bi_valid == 0 && pending + 2 <= buf.Length && v < Pow2(16)
      modifies buf, `pending
      ensures Valid() && bi_valid == 0 && pending == old(pending) + 2 && Stream() == old(Stream()) + ToBits(v, 16)
    {
      hide ToBits, BytesBits, Pow2;
      ghost var g, s := BytesBits(gone), BytesBits(buf[..pending]);
      Nothing();
      PutShort(v);
      assert g + (s + ToBits(v, 16)) + [] == g + s + [] + ToBits(v, 16);
    }

    /** Bytes as they are, at a byte boundary. */
    method PutBytes(data: seq<byte>)
      requires Valid() && out == 0 && bi_valid == 0 && pending + |data| <= buf.Length
      modifies buf, `pending
      ensures Valid() && Stream() == old(Stream()) + BytesBits(data)
      ensures pending == old(pending) + |data| && buf[..old(pending)] == old(buf[..pending])
    {
      hide ToBits, BytesBits, Pow2;
      ghost var before := buf[..pending];
      forall i | 0 <= i < |data| {
        buf[pending + i] := data[i];
      }
      pending := pending + |data|;
      assert buf[..pending] == before + data;
      BytesBitsConcat(before, data);
      Nothing();
      ghost var g, s, d := BytesBits(gone), BytesBits(before), BytesBits(data);
      assert g + (s + d) + [] == g + s + [] + d;
    }

    /** Replace the last two 16-bit words that were put, at a byte boundary. */
    method PatchLengths(len: nat)
      requires Valid() && out == 0 && bi_valid == 0 && pending >= 4 && len <= 0xffff
      modifies buf
      ensures Valid() && |old(Stream())| >= 32
      ensures Stream() == old(Stream())[..|old(Stream())| - 32] + (ToBits(len, 16) + ToBits(0xffff - len, 16))
    {
      hide ToBits, BytesBits, Pow2, Shr, Low;
      WordBound(len);
      WordBound(0xffff - len);
      TwoBytes(len);
      TwoBytes(0xffff - len);
      ghost var before, tail := buf[..pending - 4], buf[pending - 4..pending];
      assert buf[..pending] == before + tail;
      BytesBitsConcat(before, tail);
      buf[pending - 4], buf[pending - 3] := Low(len, 8), Shr(len, 8);
      buf[pending - 2], buf[pending - 1] := Low(0xffff - len, 8), Shr(0xffff - len, 8);
      ghost var four: seq<byte> := [Low(len, 8), Shr(len, 8), Low(0xffff - len, 8), Shr(0xffff - len, 8)];
      assert buf[..pending] == before + four;
      BytesBitsConcat(before, four);
      FourBytes(len, 0xffff - len);
      Nothing();
      ghost var g, b, t, f := BytesBits(gone), BytesBits(before), BytesBits(tail), BytesBits(four);
      assert (g + (b + t) + [])[..|g| + |b|] == g + b;
      assert g + (b + f) + [] == g + b + f;
    }

    /** Bytes that go straight to the output, when nothing is pending. */
    method PassThrough(data: seq<byte>)
      requires Valid() && pending == 0 && bi_valid == 0
      modifies `gone
      ensures Valid() && Stream() == old(Stream()) + BytesBits(data) && gone == old(gone) + data
    {
      hide ToBits, BytesBits;
      BytesBitsConcat(gone, data);
      NoBits();
      ghost var g, d := BytesBits(gone), BytesBits(data);
      assert g + d + [] + [] == g + [] + [] + d;
      gone := gone + data;
    }
  }

  lemma {:induction false} NoBits()
    ensures BytesBits([]) == [] && forall v: nat :: ToBits(v, 0) == []
  {
  }

  lemma {:induction false} WordBound(v: nat)
    requires v <= 0xffff
    ensures v < Pow2(16)
  {
    assert Pow2(8) == 256;
    assert Pow2(12) == 4096;
    assert Pow2(16) == 65536;
  }

  lemma {:induction false} FourBytes(v: nat, w: nat)
    requires v < Pow2(16) && w < Pow2(16)
    ensures Low(v, 8) < 256 && Shr(v, 8) < 256 && Low(w, 8) < 256 && Shr(w, 8) < 256
    ensures BytesBits([Low(v, 8), Shr(v, 8), Low(w, 8), Shr(w, 8)]) == ToBits(v, 16) + ToBits(w, 16)
  {
    hide ToBits, Pow2, Low, Shr, BytesBits;
    WordBits(v);
    WordBits(w);
    var a: seq<byte>, b: seq<byte> := [Low(v, 8), Shr(v, 8)], [Low(w, 8), Shr(w, 8)];
    BytesBitsConcat(a, b);
    assert [Low(v, 8), Shr(v, 8), Low(w, 8), Shr(w, 8)] == a + b;
  }

  lemma {:induction false} WordBits(v: nat)
    requires v < Pow2(16)
    ensures Low(v, 8) < 256 && Shr(v, 8) < 256 && BytesBits([Low(v, 8), Shr(v, 8)]) == ToBits(v, 16)
  {
    hide ToBits, Pow2, Low, Shr, BytesBits;
    TwoBytes(v);
    var a: seq<byte> := [];
    ByteStream(a, Low(v, 8));
    ByteStream([Low(v, 8)], Shr(v, 8));
    assert BytesBits(a) == [];
    assert a + [Low(v, 8)] == [Low(v, 8)] && [Low(v, 8)] + [Shr(v, 8)] == [Low(v, 8), Shr(v, 8)];
  }

  lemma {:induction false} TakeOut(gone: seq<byte>, all: seq<byte>, len: nat)
    requires len <= |all|
    ensures BytesBits(gone) + BytesBits(all) == BytesBits(gone + all[..len]) + BytesBits(all[len..])
  {
    hide BytesBits;
    BytesBitsConcat(all[..len], all[len..]);
    BytesBitsConcat(gone, all[..len]);
    assert all == all[..len] + all[len..];
    assert BytesBits(gone) + (BytesBits(all[..len]) + BytesBits(all[len..]))
        == (BytesBits(gone) + BytesBits(all[..len])) + BytesBits(all[len..]);
  }

  lemma {:induction false} Nothing()
    ensures ToBits(0, 0) == [] && Pow2(0) == 1 && forall v: nat :: ToBits(v, 0) == []
  {
  }

  lemma {:induction false} Winding(g: seq<bool>, s: seq<bool>, b: seq<bool>, z: seq<bool>)
    ensures g + (s + (b + z)) + [] == g + s + b + z
  {
  }

  /** How many bits are missing to a byte boundary, behind whole bytes. */
  lemma {:induction false} WholeBytes(n: nat, m: nat)
    requires m <= 16
    ensures (8 - (8 * n + m) % 8) % 8 == (16 - m) % 8
  {
  }

  lemma {:induction false} NoZeros()
    ensures Zeros(0) == []
  {
  }

  lemma {:induction false} LowByte(w: nat, n: nat)
    requires 8 <= n <= 16 && w < Pow2(n)
    ensures Low(w, 8) < 256 && Shr(w, 8) < Pow2(n - 8)
    ensures ToBits(Low(w, 8), 8) == ToBits(w, n)[..8] && ToBits(Shr(w, 8), n - 8) == ToBits(w, n)[8..]
  {
    assert Pow2(8) == 256;
    ShlShrLow(w, 8);
    ShrBound(w, n - 8, 8);
    ToBitsSplit(w, 8, n - 8);
    ToBitsLow(w, 8);
  }

  lemma {:induction false} SmallByte(w: nat)
    requires w < Pow2(8)
    ensures w < 256
  {
  }

  /** A small value in a wider field is followed by zeros. */
  lemma {:induction false} Padded(w: nat, m: nat, n: nat)
    requires w < Pow2(m) && m <= n
    ensures w < Pow2(n) && ToBits(w, n) == ToBits(w, m) + Zeros(n - m)
  {
    Pow2Mono(m, n);
    LowSmall(w, m);
    ToBitsSplit(w, m, n - m);
    ZeroBits(n - m);
  }

  lemma {:induction false} ZeroBits(n: nat)
    ensures ToBits(0, n) == Zeros(n)
  {
    if n > 0 {
      ZeroBits(n - 1);
      assert Zeros(n) == [false] + Zeros(n - 1);
    }
  }
}
