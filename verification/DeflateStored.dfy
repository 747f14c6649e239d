/** deflate_stored (deflate.c): blocks that are stored. As much as possible is copied from the
    window and the input straight to the output, past the pending buffer; the rest waits in the
    window. The blocks sent and the bytes that wait are always the input, in order. */
module DeflateStored {
  import opened Bits
  import opened Blocks
  import opened Streams
  import opened Covers
  import opened Lz77
  import opened Trees
  import opened DeflateState
  import opened BitWriter
  import opened Compress
  import R = Rfc1951

  const MAX_STORED: nat := 65535

  function Min(a: int, b: int): int {
    if a > b then b else a
  }

  // ---- the matcher, without chains ----

  /** A matcher that only keeps the window. */
  ghost predicate Resting(m: Matcher)
    reads m`g, m`strstart, m`lookahead, m`insert, m`match_start, m`high_water, m.window, m.prev, m.head
  {
    m.Placed() && m.lookahead == 0 && m.g.ins == {} && m.g.next == 0 && m.level == 0 && m.strstart <= 2 * m.w_size
        && m.insert <= m.w_size
  }

  /** ... where block_start is the first byte not yet sent. */
  ghost predicate Keeping(m: Matcher)
    reads m, m.window, m.prev, m.head
  {
    Resting(m) && 0 <= m.block_start <= m.strstart
  }

  lemma {:induction false} NoChains(g: Past, head: seq<nat>, prev: seq<nat>, done: seq<byte>, base: nat)
    requires HeadOk(g, head) && PrevOk(g, prev) && g.ins == {} && g.next == 0
    ensures var g2 := g.(done := done, base := base); HeadOk(g2, head) && PrevOk(g2, prev)
  {
    hide KeyAt;
    var g2 := g.(done := done, base := base);
    forall k: nat | k < |head| ensures Points(g2, head[k], k) { assert Points(g, head[k], k); }
  }

  /** The last w bytes of the input, when at least that many went past the window. */
  method Supplant(m: Matcher, taken: seq<byte>)
    requires Keeping(m) && |taken| >= m.w_size
    modifies m`strstart, m`insert, m`block_start, m`g, m.window
    ensures Keeping(m) && m.block_start == m.strstart
        && m.g == old(m.g).(done := old(m.g.done) + taken, base := m.g.base)
  {
    hide HeadOk, PrevOk;
    ghost var done, hs, ps := m.g.done + taken, m.head[..], m.prev[..];
    var n := |taken| - m.w_size;
    forall i | 0 <= i < m.w_size { m.window[i] := taken[n + i]; }
    assert m.head[..] == hs && m.prev[..] == ps;
    NoChains(m.g, hs, ps, done, |done| - m.w_size);
    m.g := m.g.(done := done, base := |done| - m.w_size);
    m.strstart := m.w_size;
    m.insert := m.strstart;
    m.block_start := m.strstart;
    assert m.window[..m.w_size] == done[m.g.base..];
  }

  /** Move the upper half of the window down. */
  method Lower(m: Matcher)
    requires m.Placed() && m.lookahead == 0 && m.g.ins == {} && m.g.next == 0 && m.strstart >= m.w_size
    modifies m`strstart, m`insert, m`g, m.window
    ensures m.Placed() && m.lookahead == 0 && m.strstart == old(m.strstart) - m.w_size
        && m.g == old(m.g).(base := old(m.g).base + m.w_size)
    ensures m.insert <= old(m.insert)
  {
    hide HeadOk, PrevOk, Holds;
    m.SlideWindow();
    NoChains(m.g, m.head[..], m.prev[..], m.g.done, m.g.base + m.w_size);
    m.g := m.g.(base := m.g.base + m.w_size);
    m.strstart := m.strstart - m.w_size;
    if m.insert > m.strstart { m.insert := m.strstart; }
  }

  /** Append bytes that went past the window, or that were read. */
  method Append(m: Matcher, taken: seq<byte>)
    requires m.Placed() && m.lookahead == 0 && m.g.ins == {} && m.g.next == 0 && m.strstart + |taken| <= 2 * m.w_size
        && m.insert <= m.w_size
    modifies m`strstart, m`insert, m`g, m.window
    ensures m.Placed() && m.lookahead == 0 && m.strstart == old(m.strstart) + |taken|
        && m.g == old(m.g).(done := old(m.g.done) + taken)
    ensures m.insert <= m.w_size
  {
    hide HeadOk, PrevOk, Holds;
    ghost var hs, ps := m.head[..], m.prev[..];
    ghost var win: seq<byte> := m.window[..];
    HoldsLength(m.g.done, m.g.base, win);
    var at := m.strstart;
    forall i | 0 <= i < |taken| { m.window[at + i] := taken[i]; }
    assert m.head[..] == hs && m.prev[..] == ps;
    ReadHolds(m.g.done, m.g.base, win, m.window[..], taken);
    NoChains(m.g, hs, ps, m.g.done + taken, m.g.base);
    m.g := m.g.(done := m.g.done + taken);
    m.strstart := m.strstart + |taken|;
    m.insert := m.insert + Min(|taken|, m.w_size - m.insert);
  }

  /** Keep the last bytes of what went past the window. */
  method Remember(m: Matcher, taken: seq<byte>)
    requires Keeping(m) && m.block_start == m.strstart && taken != []
    modifies m`strstart, m`insert, m`block_start, m`g, m.window
    ensures Keeping(m) && m.block_start == m.strstart
        && m.g == old(m.g).(done := old(m.g.done) + taken, base := m.g.base)
    ensures |m.g.done| == m.g.base + m.strstart
  {
    hide Matcher.Indexed;
    if |taken| >= m.w_size {
      Supplant(m, taken);
    } else {
      if 2 * m.w_size - m.strstart <= |taken| { Lower(m); }
      Append(m, taken);
    }
    m.block_start := m.strstart;
  }

  method RaiseHighWater(m: Matcher)
    requires Keeping(m)
    modifies m`high_water
    ensures Keeping(m) && m.high_water >= m.strstart
  {
    if m.high_water < m.strstart { m.high_water := m.strstart; }
  }

  /** Slide the window when the rest of the input does not fit, unless that would lose bytes
      that are not yet sent. */
  method MakeRoom(m: Matcher) returns (have: nat)
    requires Keeping(m)
    modifies m`strstart, m`insert, m`block_start, m`g, m.window
    ensures Keeping(m) && have == 2 * m.w_size - m.strstart && m.g == old(m.g).(base := m.g.base)
    ensures m.g.base + m.block_start == old(m.g.base + m.block_start)
    ensures have >= |m.input| || m.block_start <= m.w_size
  {
    hide Matcher.Indexed;
    have := 2 * m.w_size - m.strstart;
    if |m.input| > have && m.block_start >= m.w_size {
      m.block_start := m.block_start - m.w_size;
      Lower(m);
      have := have + m.w_size;
    }
  }

  /** Read what is left of the input into the window, as far as it goes. */
  method FillStored(m: Matcher)
    requires Keeping(m)
    modifies m`strstart, m`insert, m`block_start, m`g, m`high_water, m`input, m.window
    ensures Keeping(m) && m.g.done + m.input == old(m.g.done + m.input) && old(m.g).done <= m.g.done
        && m.g.floor == old(m.g).floor
    ensures m.g.base + m.block_start == old(m.g.base + m.block_start)
    ensures m.input == [] || (m.strstart == 2 * m.w_size && m.block_start <= m.w_size)
  {
    hide Matcher.Indexed;
    var have := MakeRoom(m);
    if have > |m.input| { have := |m.input|; }
    ghost var done, input := m.g.done, m.input;
    assert done + input == done + input[..have] + input[have..];
    if have > 0 {
      Append(m, m.input[..have]);
      m.input := m.input[have..];
    }
    RaiseHighWater(m);
  }

  // ---- straight to the output ----

  /** Everything but the account of blocks. */
  ghost predicate Raw(s: DeflateState)
    reads s`next_out, s`avail_out, s`earlier, s`room, s.bs, s.bs.w, s.bs.parts
  {
    && s.Apart() && s.bs.Valid() && s.bs.w.Valid() && s.bs.ts == []
    && s.bs.w.gone == s.earlier + s.next_out && |s.next_out| + s.avail_out == s.room
  }

  /** The blocks sent stand for the first p bytes of all input. */
  ghost predicate SentUpTo(s: DeflateState, full: seq<byte>, p: nat)
    reads s`sent, s`marks, s`next_out, s`avail_out, s`earlier, s`room, s`credit, s.bs, s.bs.w, s.bs.parts
  {
    && Raw(s) && AllOk(s.sent) && s.bs.w.Stream() == StreamBits(s.sent) && Covered(s.marks, s.sent, [], full, p, p)
    && Lean(s.sent, p, s.credit) && Kinds(s.strategy, s.sent)
  }

  /** The input not yet sent: what waits in the window, and what was not read. */
  ghost function Waiting(m: Matcher): seq<byte>
    reads m`block_start, m`strstart, m`input, m.window
    requires 0 <= m.block_start <= m.strstart <= m.window.Length
  {
    m.window[m.block_start..m.strstart] + m.input
  }

  method CopyOut(s: DeflateState, data: seq<byte>)
    requires Raw(s) && s.bs.w.pending == 0 && s.bs.w.bi_valid == 0 && |data| <= s.avail_out
    modifies s`next_out, s`avail_out, s.bs.parts
    ensures Raw(s) && s.bs.w.pending == 0 && s.bs.w.bi_valid == 0 && s.avail_out == old(s.avail_out) - |data|
    ensures s.bs.w.Stream() == old(s.bs.w.Stream()) + BytesBits(data)
  {
    hide BlockState.PartsOk, BlockState.Valid, BytesBits, Writer.Stream;
    s.bs.PassThrough(data);
    assert s.earlier + s.next_out + data == s.earlier + (s.next_out + data);
    s.next_out := s.next_out + data;
    s.avail_out := s.avail_out - |data|;
  }

  /** Send the header of a stored block, with the bits held before it. There is room for it. */
  method DirectHeader(s: DeflateState, len: nat, last: bool)
    requires Raw(s) && s.bs.w.pending == 0 && s.bs.w.bi_valid < 8 && len <= MAX_STORED
        && (s.bs.w.bi_valid + 42) / 8 <= s.avail_out
    modifies s`next_out, s`avail_out, s.bs.parts
    ensures Raw(s) && s.bs.w.pending == 0 && s.bs.w.bi_valid == 0
        && s.avail_out == old(s.avail_out) - (old(s.bs.w.bi_valid) + 42) / 8
    ensures s.bs.w.Stream() == old(s.bs.w.Stream()) + StoredHeader(len, last, |old(s.bs.w.Stream())|)
  {
    hide BlockState.PartsOk, BlockState.Valid, Writer.Stream, StoredHeader;
    s.bs.StoreHeader(len, last);
    var bytes := s.bs.HandOut(s.avail_out);
    assert s.earlier + s.next_out + bytes == s.earlier + (s.next_out + bytes);
    s.next_out := s.next_out + bytes;
    s.avail_out := s.avail_out - |bytes|;
  }

  /** Send len bytes, from the window first and then from the input. */
  method DirectBytes(s: DeflateState, len: nat)
    requires Raw(s) && s.bs.w.pending == 0 && s.bs.w.bi_valid == 0 && len <= s.avail_out
    requires 0 <= s.m.block_start <= s.m.strstart <= s.m.window.Length && len <= |Waiting(s.m)|
    modifies s`next_out, s`avail_out, s.m`block_start, s.m`input, s.bs.parts
    ensures Raw(s) && s.bs.w.pending == 0 && s.bs.w.bi_valid == 0 && s.avail_out == old(s.avail_out) - len
    ensures s.bs.w.Stream() == old(s.bs.w.Stream()) + BytesBits(old(Waiting(s.m))[..len])
    ensures 0 <= s.m.block_start <= s.m.strstart && Waiting(s.m) == old(Waiting(s.m))[len..]
    ensures (s.m.input == old(s.m.input) || s.m.block_start == s.m.strstart) && |s.m.input| <= |old(s.m.input)|
    ensures s.m.block_start >= old(s.m.block_start)
  {
    hide BytesBits, Writer.Stream, Raw, BlockState.PartsOk;
    RawApart(s);
    var left := s.m.strstart - s.m.block_start;
    var rest := len;
    ghost var stream, wait := s.bs.w.Stream(), Waiting(s.m);
    if left > len { left := len; }
    ghost var first, second := s.m.window[s.m.block_start..s.m.block_start + left], s.m.input[..len - left];
    assert wait[..len] == first + second;
    BytesBitsConcat(first, second);
    assert stream + BytesBits(first) + BytesBits(second) == stream + BytesBits(wait[..len]);
    if left > 0 {
      CopyOut(s, s.m.window[s.m.block_start..s.m.block_start + left]);
      s.m.block_start := s.m.block_start + left;
      rest := rest - left;
    } else {
      NoBits();
      assert stream + BytesBits(first) == stream;
    }
    if rest > 0 {
      CopyOut(s, s.m.input[..rest]);
      s.m.input := s.m.input[rest..];
    } else {
      NoBits();
    }
    assert Waiting(s.m) == wait[len..];
  }

  lemma {:induction false} RawApart(s: DeflateState)
    requires Raw(s)
    ensures s.Apart() && s.bs.w.Valid()
  {
  }

  /** A stored block is aligned, so that nothing is padded when it is the last. */
  lemma {:induction false} StoredPadded(s: seq<bool>, bytes: seq<byte>, last: bool)
    requires |bytes| <= MAX_STORED
    ensures s + PaddedBits(Block(Stored(bytes), last), |s|) == s + StoredHeader(|bytes|, last, |s|) + BytesBits(bytes)
    ensures s + PaddedBits(Block(Stored(bytes), last), |s|) == s + BlockBits(Stored(bytes), last, |s|)
  {
    hide ToBits, BytesBits;
    StoredIs(bytes, last, |s|);
    assert s + (StoredHeader(|bytes|, last, |s|) + BytesBits(bytes)) == s + StoredHeader(|bytes|, last, |s|)
        + BytesBits(bytes);
    assert (|s| + |BlockBits(Stored(bytes), last, |s|)|) % 8 == 0;
    hide BlockBits, StoredHeader;
    assert Padding(|s| + |BlockBits(Stored(bytes), last, |s|)|) == [];
  }

  /** The bits of a stored block, straight to the output. */
  method DirectBits(s: DeflateState, len: nat, last: bool)
    requires Raw(s) && s.bs.w.pending == 0 && s.bs.w.bi_valid < 8 && len <= MAX_STORED
        && (s.bs.w.bi_valid + 42) / 8 + len <= s.avail_out
    requires 0 <= s.m.block_start <= s.m.strstart <= s.m.window.Length && len <= |Waiting(s.m)|
    modifies s`next_out, s`avail_out, s.m`block_start, s.m`input, s.bs.parts
    ensures Raw(s) && s.bs.w.pending == 0 && s.bs.w.bi_valid == 0
    ensures
        var before := old(s.bs.w.Stream());
        s.bs.w.Stream() == before + StoredHeader(len, last, |before|)
        + BytesBits(old(Waiting(s.m))[..len])
    ensures 0 <= s.m.block_start <= s.m.strstart && Waiting(s.m) == old(Waiting(s.m))[len..]
    ensures (s.m.input == old(s.m.input) || s.m.block_start == s.m.strstart) && |s.m.input| <= |old(s.m.input)|
    ensures s.m.block_start >= old(s.m.block_start)
  {
    hide BlockState.PartsOk, BytesBits, Writer.Stream, Raw, StoredHeader, Waiting;
    RawApart(s);
    DirectHeader(s, len, last);
    DirectBytes(s, len);
  }

  /** One stored block, straight to the output. */
  method DirectBlock(s: DeflateState, len: nat, last: bool, ghost full: seq<byte>, ghost p: nat)
    requires SentUpTo(s, full, p) && s.bs.w.pending == 0 && s.bs.w.bi_valid < 8
    requires len <= MAX_STORED && (s.bs.w.bi_valid + 42) / 8 + len <= s.avail_out && Open(s.sent) && (last || len > 0)
    requires 0 <= s.m.block_start <= s.m.strstart <= s.m.window.Length && p <= |full| && full[p..] == Waiting(s.m)
        && len <= |Waiting(s.m)|
    modifies s`next_out, s`avail_out, s`sent, s.m`block_start, s.m`input, s.bs.parts
    ensures p + len <= |full| && SentUpTo(s, full, p + len) && s.bs.w.pending == 0 && s.bs.w.bi_valid == 0
    ensures 0 <= s.m.block_start <= s.m.strstart && full[p + len..] == Waiting(s.m)
    ensures (s.m.input == old(s.m.input) || s.m.block_start == s.m.strstart) && |s.m.input| <= |old(s.m.input)|
    ensures s.m.block_start >= old(s.m.block_start)
    ensures s.sent == old(s.sent) + [Block(Stored(full[p..p + len]), last)]
  {
    hide BlockState.PartsOk, BytesBits, Writer.Stream, Raw, StoredHeader, PaddedBits, Covered, Lean, AllOk,
         StreamBits, Waiting;
    hide BlockBits, FormOk, Lean, Open, Kinds;
    RawApart(s);
    CoveredOk(s.marks, s.sent, full, p);
    DirectBits(s, len, last);
    ghost var sent2 := StoredMore(s.marks, s.sent, full, p, len, last, s.credit);
    KindsMore(s.strategy, s.sent, Block(Stored(full[p..p + len]), last));
    s.sent := sent2;
  }

  /** The blocks and their bits with one stored block more. */
  lemma {:induction false} StoredMore(marks: seq<Mark>, sent: seq<Block>, full: seq<byte>, p: nat, len: nat,
      last: bool, credit: nat)
    returns (sent2: seq<Block>)
    requires Covered(marks, sent, [], full, p, p) && AllOk(sent) && p + len <= |full| && len <= MAX_STORED
    requires Lean(sent, p, credit) && Open(sent) && (last || len > 0)
    ensures Lean(sent2, p + len, credit)
    ensures sent2 == sent + [Block(Stored(full[p..p + len]), last)] && AllOk(sent2)
        && Covered(marks, sent2, [], full, p + len, p + len)
    ensures full[p..][len..] == full[p + len..]
    ensures var s := StreamBits(sent);
            && StreamBits(sent2) == s + StoredHeader(len, last, |s|) + BytesBits(full[p..][..len])
            && FormOk(Stored(full[p..p + len]))
                && StreamBits(sent2) == s + BlockBits(Stored(full[p..p + len]), last, |s|)
  {
    hide BytesBits, StoredHeader, PaddedBits, Covered, AllOk, StreamBits, BlockBits, Lean, Open;
    TakeDrop(full, p, len);
    CoverStored(marks, sent, full, p, len, last);
    StoredPadded(StreamBits(sent), full[p..p + len], last);
    StoredSize(full[p..p + len], last, |StreamBits(sent)|);
    sent2 := sent + [Block(Stored(full[p..p + len]), last)];
    CoveredOk(marks, sent2, full, p + len);
    LeanMore(sent, Block(Stored(full[p..p + len]), last), p, len, credit, 0);
  }

  lemma {:induction false} TakeDrop(full: seq<byte>, p: nat, len: nat)
    requires p + len <= |full|
    ensures full[p..][..len] == full[p..p + len] && full[p..][len..] == full[p + len..]
  {
  }

  lemma {:induction false} CoveredOk(marks: seq<Mark>, sent: seq<Block>, full: seq<byte>, p: nat)
    requires Covered(marks, sent, [], full, p, p)
    ensures AllOk(sent) && p <= |full|
  {
    CoverRange(marks, sent, [], full, p, p);
  }

  // ---- deflate_stored ----

  /** Between calls: the blocks sent end where the waiting bytes begin. */
  ghost predicate StoredState(s: DeflateState)
    reads s`match_available, s`sent, s`marks, s`earlier, s`next_out, s`avail_out, s`room, s`credit, s.m, s.m.window,
        s.m.prev, s.m.head, s.bs, s.bs.w, s.bs.parts
  {
    Keeping(s.m) && !s.match_available && s.bs.ts == [] && s.Sound(s.m.g.base + s.m.block_start)
  }

  /** The length of a block that goes straight to the output, limited by the input and by the
      output, or none when there is no room for its header or when it is too short. */
  function DirectLength(waiting: nat, avail_out: nat, header: nat, min_block: int, flush: Flush): (len: R.Option<nat>)
    requires min_block > 0
    ensures len.Some? ==> len.value <= MAX_STORED && len.value <= waiting && header + len.value <= avail_out
    ensures len.Some? ==> len.value > 0 || (flush == Z_FINISH && waiting == 0)
  {
    if avail_out < header then R.None
    else
      var len := Min(Min(MAX_STORED, waiting), avail_out - header);
      if len < min_block && ((len == 0 && flush != Z_FINISH) || flush == Z_NO_FLUSH || len != waiting) then R.None
      else R.Some(len)
  }

  /** The state of the loop: the first p bytes of all input are sent, the rest waits; and once
      input has gone past the window, nothing waits in it. */
  ghost predicate Direct(s: DeflateState, full: seq<byte>, p: nat, input0: seq<byte>)
    reads s, s.m, s.m.window, s.m.prev, s.m.head, s.bs, s.bs.w, s.bs.parts
  {
    && Keeping(s.m) && SentUpTo(s, full, p) && s.bs.w.pending == 0 && s.bs.w.bi_valid < 8 && full == s.m.g.done + input0
    && p <= |full| && full[p..] == Waiting(s.m) && (s.m.input == input0 || s.m.block_start == s.m.strstart)
    && |s.m.input| <= |input0| && Below(s.marks, s.m.g.floor)
  }

  /** The loop that copies straight to the output. */
  method CopyDirect(s: DeflateState, flush: Flush, ghost full: seq<byte>, ghost p0: nat)
      returns (last: bool, ghost p: nat)
    requires Direct(s, full, p0, s.m.input) && Open(s.sent)
    modifies s`next_out, s`avail_out, s`sent, s.m`block_start, s.m`input, s.bs.parts
    ensures Direct(s, full, p, old(s.m.input)) && s.bs.w.pending == 0 && s.bs.w.bi_valid < 8 && old(s.sent) <= s.sent
    ensures if last then Closed(s.sent) && flush == Z_FINISH && p == |full| && s.bs.w.bi_valid == 0
        else Open(s.sent) && NoneDirect(s, |full| - p, flush)
  {
    hide Direct;
    last, p := false, p0;
    ghost var input0 := s.m.input;
    while !last
      invariant Direct(s, full, p, input0) && old(s.sent) <= s.sent
          && (if last then Closed(s.sent) && flush == Z_FINISH && p == |full| && s.bs.w.bi_valid == 0 else Open(s.sent))
      decreases !last, |full| - p
    {
      var go;
      ghost var p2;
      go, last, p2 := DirectTurn(s, flush, full, p, input0);
      p := p2;
      if !go { break; }
    }
    assert s.bs.w.pending == 0 && s.bs.w.bi_valid < 8 by { DirectDrained(s, full, p, input0); }
  }

  lemma {:induction false} DirectDrained(s: DeflateState, full: seq<byte>, p: nat, input0: seq<byte>)
    requires Direct(s, full, p, input0)
    ensures s.bs.w.pending == 0 && s.bs.w.bi_valid < 8
  {
  }

  /** One turn: a block, if it is worth it. */
  method DirectTurn(s: DeflateState, flush: Flush, ghost full: seq<byte>, ghost p: nat, ghost input0: seq<byte>)
      returns (go: bool, last: bool, ghost p2: nat)
    requires Direct(s, full, p, input0) && Open(s.sent)
    modifies s`next_out, s`avail_out, s`sent, s.m`block_start, s.m`input, s.bs.parts
    ensures Direct(s, full, p2, input0) && old(s.sent) <= s.sent
    ensures if last then Closed(s.sent) && flush == Z_FINISH && p2 == |full| && s.bs.w.bi_valid == 0 else Open(s.sent)
    ensures if go then last || p < p2 <= |full| else !last && p2 == p && NoneDirect(s, |full| - p, flush)
  {
    hide Resting, SentUpTo, BlockState.PartsOk, Waiting;
    Sizes(s, full, p);
    var waiting := s.m.strstart - s.m.block_start + |s.m.input|;
    var len := DirectLength(waiting, s.avail_out, (s.bs.w.bi_valid + 42) / 8, MinBlock(s), flush);
    if len == R.None { return false, false, p; }
    last := flush == Z_FINISH && len.value == waiting;
    DirectBlock(s, len.value, last, full, p);
    go, p2 := true, p + len.value;
  }

  lemma {:induction false} Sizes(s: DeflateState, full: seq<byte>, p: nat)
    requires Keeping(s.m) && SentUpTo(s, full, p)
    ensures s.m.strstart <= s.m.window.Length && MinBlock(s) > 0 && s.Apart()
        && |s.m.g.done| == s.m.g.base + s.m.strstart
    ensures |Waiting(s.m)| == s.m.strstart - s.m.block_start + |s.m.input|
  {
    hide Covered, Lean, HeadOk, PrevOk, Holds;
  }

  /** No more blocks go straight to the output, with so many bytes waiting. */
  ghost predicate NoneDirect(s: DeflateState, waiting: int, flush: Flush)
    reads s`avail_out, s.bs.w
  {
    waiting >= 0 && MinBlock(s) > 0
        && DirectLength(waiting, s.avail_out, (s.bs.w.bi_valid + 42) / 8, MinBlock(s), flush) == R.None
  }

  /** The least length worth a block of its own. */
  function MinBlock(s: DeflateState): int {
    Min(4 * s.bs.lit_bufsize - 5, s.m.w_size)
  }

  lemma {:induction false} StartDirect(s: DeflateState, full: seq<byte>, p: nat)
    requires StoredState(s) && s.Drained() && full == s.m.g.done + s.m.input && p == s.m.g.base + s.m.block_start
    ensures Direct(s, full, p, s.m.input)
  {
    hide HeadOk, PrevOk, AllOk, BlockState.Valid, Writer.Valid, Writer.Stream, StreamBits, BlockState.PartsOk;
    CoverRead(s.marks, s.sent, [], s.m.g.done, full, p, p);
    s.DataIs();
    assert full[p..] == s.m.g.done[p..] + s.m.input;
  }

  lemma {:induction false} TakenIs(done: seq<byte>, input0: seq<byte>, held: seq<byte>, input: seq<byte>,
      full: seq<byte>, p: nat)
    requires full == done + input0 && p <= |full| && full[p..] == held + input && |input| <= |input0|
        && (input == input0 || held == [])
    ensures var used := |input0| - |input|;
            && p + |held| == |done| + used && (used > 0 ==> held == []) && (used == 0 ==> input == input0)
            && done + input0[..used] + input == full
  {
    var used := |input0| - |input|;
    assert |full| - p == |held| + |input|;
    if held == [] {
      Suffix(done, input0, used);
      assert held + input == input;
      Rebracket(done, input0[..used], input);
    } else {
      assert input0[..0] == [] && done + [] == done;
    }
  }

  lemma {:induction false} Suffix(a: seq<byte>, b: seq<byte>, n: nat)
    requires n <= |b|
    ensures (a + b)[|a| + n..] == b[n..] && b == b[..n] + b[n..]
  {
  }

  /** What was taken past the window is the beginning of the input. */
  lemma {:induction false} DirectFacts(s: DeflateState, full: seq<byte>, p: nat, input0: seq<byte>)
    requires Direct(s, full, p, input0)
    ensures Keeping(s.m) && SentUpTo(s, full, p) && s.Apart() && |s.m.input| <= |input0|
        && |s.m.g.done| == s.m.g.base + s.m.strstart && Below(s.marks, s.m.g.floor)
    ensures var used := |input0| - |s.m.input|;
            && p == s.m.g.base + s.m.block_start + used && (used > 0 ==> s.m.block_start == s.m.strstart)
            && s.m.g.done + input0[..used] + s.m.input == full && (used == 0 ==> s.m.input == input0)
  {
    hide SentUpTo, Resting;
    Sizes(s, full, p);
    TakenIs(s.m.g.done, input0, s.m.window[s.m.block_start..s.m.strstart], s.m.input, full, p);
  }

  lemma {:induction false} SoundAgain(s: DeflateState, full: seq<byte>, p: nat)
    requires SentUpTo(s, full, p) && s.m.g.done <= full && p <= |s.m.g.done| && p == s.m.g.base + s.m.block_start
        && Below(s.marks, s.m.g.floor)
    ensures s.Sound(p) && s.bs.ts == []
  {
    hide Covered, Lean, BlockState.Valid, Writer.Stream, StreamBits, BlockState.PartsOk;
    CoverPrefix(s.marks, s.sent, full, s.m.g.done, p);
  }

  /** After the loop the window is brought up to date. */
  method EndDirect(s: DeflateState, input0: seq<byte>, ghost full: seq<byte>, ghost p: nat)
    requires Direct(s, full, p, input0) && !s.match_available
    modifies s.m`strstart, s.m`insert, s.m`block_start, s.m`g, s.m`high_water, s.m.window
    ensures StoredState(s) && s.m.g.done + s.m.input == full && old(s.m.g).done <= s.m.g.done
        && p == s.m.g.base + s.m.block_start
  {
    hide Direct, SentUpTo, Resting, DeflateState.Sound, BlockState.PartsOk;
    DirectFacts(s, full, p, input0);
    var used := |input0| - |s.m.input|;
    if used > 0 {
      Remember(s.m, input0[..used]);
    }
    RaiseHighWater(s.m);
    SoundAgain(s, full, p);
  }

  /** Send len bytes that wait in the window, by way of the pending buffer. */
  method PutStored(s: DeflateState, len: nat, last: bool)
    requires StoredState(s) && s.bs.w.pending == 0 && s.bs.w.bi_valid < 8 && Open(s.sent)
    requires len <= s.m.strstart - s.m.block_start && len <= MAX_STORED
        && (s.bs.w.bi_valid + 42) / 8 + len <= 4 * s.bs.lit_bufsize
    requires last || len > 0
    modifies s`next_out, s`avail_out, s`sent, s.m`block_start, s.bs.parts
    ensures StoredState(s) && s.m.block_start == old(s.m.block_start) + len && s.bs.w.bi_valid == 0
        && (if last then Closed(s.sent) else Open(s.sent))
    ensures (s.bs.w.pending == 0 || s.avail_out == 0) && old(s.sent) <= s.sent
    ensures old(s.avail_out) <= (old(s.bs.w.bi_valid) + 42) / 8 + len ==> s.avail_out == 0
  {
    hide BlockState.PartsOk, DeflateState.Sound, Resting;
    s.SoundApart(s.m.g.base + s.m.block_start);
    StoreWaiting(s, len, last);
    s.SoundApart(s.m.g.base + s.m.block_start);
    HandOut(s, s.m.g.base + s.m.block_start);
  }

  /** Put a stored block of len bytes that wait in the window into the pending buffer. */
  method StoreWaiting(s: DeflateState, len: nat, last: bool)
    requires StoredState(s) && s.bs.w.pending == 0 && s.bs.w.bi_valid < 8 && Open(s.sent)
    requires len <= s.m.strstart - s.m.block_start && len <= MAX_STORED
        && (s.bs.w.bi_valid + 42) / 8 + len <= 4 * s.bs.lit_bufsize
    requires last || len > 0
    modifies s`sent, s.m`block_start, s.bs.parts
    ensures StoredState(s) && s.m.block_start == old(s.m.block_start) + len && s.bs.w.bi_valid == 0 && s.bs.w.out == 0
    ensures old(s.sent) <= s.sent && |s.sent| == |old(s.sent)| + 1 && s.sent[|s.sent| - 1].last == last
    ensures s.bs.w.pending == (old(s.bs.w.bi_valid) + 42) / 8 + len
  {
    hide BlockState.PartsOk, BlockState.Valid, Writer.Stream, StreamBits, Covered, Lean, Resting, BlockBits, AllOk,
         FormOk, StoredHeader, Kinds, Below, TokenKinds, BytesBits;
    ghost var p := s.m.g.base + s.m.block_start;
    s.SoundApart(p);
    StoredData(s, p, len);
    SentOk(s, p);
    ghost var sent2 := StoredMore(s.marks, s.sent, s.m.g.done, p, len, last, s.credit);
    KindsMore(s.strategy, s.sent, Block(Stored(s.m.g.done[p..p + len]), last));
    s.bs.Store(s.m.window[s.m.block_start..s.m.block_start + len], last);
    s.sent := sent2;
    s.m.block_start := s.m.block_start + len;
  }

  lemma {:induction false} SentOk(s: DeflateState, p: nat)
    requires s.Sound(p)
    ensures AllOk(s.sent) && s.bs.w.Valid() && s.bs.w.out + s.bs.w.pending <= s.bs.w.buf.Length
  {
    hide Covered, Lean, BlockState.Valid, StreamBits;
  }

  /** flush_pending after a stored block. */
  method HandOut(s: DeflateState, ghost upto: nat)
    requires s.Sound(upto) && s.bs.w.out == 0 && s.bs.w.bi_valid == 0
    modifies s`next_out, s`avail_out, s.bs.parts
    ensures s.Sound(upto) && s.bs.ts == old(s.bs.ts) && s.bs.w.bi_valid == 0
        && (s.bs.w.pending == 0 || s.avail_out == 0)
    ensures old(s.avail_out) <= old(s.bs.w.pending) ==> s.avail_out == 0
  {
    hide BlockState.PartsOk, BlockState.Valid, Writer.Stream, Covered, Lean, Matcher.Valid, Matcher.Inserted;
    s.FlushPending(upto);
  }

  lemma {:induction false} StoredData(s: DeflateState, p: nat, len: nat)
    requires Keeping(s.m) && p == s.m.g.base + s.m.block_start && len <= s.m.strstart - s.m.block_start
    ensures s.m.strstart <= s.m.window.Length && p + len <= |s.m.g.done|
    ensures s.m.window[s.m.block_start..s.m.block_start + len] == s.m.g.done[p..p + len]
  {
    hide HeadOk, PrevOk;
    s.DataIs();
    var whole := s.m.window[s.m.block_start..s.m.strstart];
    assert whole[..len] == s.m.window[s.m.block_start..s.m.block_start + len];
    assert s.m.g.done[p..s.m.g.base + s.m.strstart][..len] == s.m.g.done[p..p + len];
  }

  /** What is left is sent by way of the pending buffer, if it is worth a block, or if the
      caller wants it out and it fits. More is asked for only when the output is full, or when
      there is no more input and no reason to send what waits. */
  method PutPending(s: DeflateState, flush: Flush, ghost waiting: int) returns (state: BlockResult)
    requires StoredState(s) && s.bs.w.pending == 0 && s.bs.w.bi_valid < 8 && Open(s.sent)
        && NoneDirect(s, waiting, flush)
    requires waiting == s.m.strstart - s.m.block_start + |s.m.input|
        && (s.m.input == [] || s.m.strstart - s.m.block_start >= s.m.w_size)
    requires flush == Z_NO_FLUSH || flush == Z_FINISH || waiting > 0
    modifies s`next_out, s`avail_out, s`sent, s.m`block_start, s.bs.parts
    ensures StoredState(s) && Outcome(s, flush, state) && s.m.g.done == old(s.m.g.done) && s.m.input == old(s.m.input)
        && old(s.sent) <= s.sent
  {
    hide BlockState.PartsOk, DeflateState.Sound, Resting;
    Widths(s);
    var have := Min(4 * s.bs.lit_bufsize - (s.bs.w.bi_valid + 42) / 8, MAX_STORED);
    var min_block := Min(have, s.m.w_size);
    var left := s.m.strstart - s.m.block_start;
    var last := false;
    if left >= min_block || ((left > 0 || flush == Z_FINISH) && flush != Z_NO_FLUSH && s.m.input == []
        && left <= have) {
      var len := Min(left, have);
      last := flush == Z_FINISH && s.m.input == [] && len == left;
      PutStored(s, len, last);
      Widths(s);
    }
    state := if last then FinishStarted else NeedMore;
  }

  lemma {:induction false} Widths(s: DeflateState)
    requires StoredState(s)
    ensures 512 <= s.m.w_size <= 32768 && 64 <= s.bs.lit_bufsize <= 32768 && s.m.lookahead == 0 && s.Apart()
  {
    hide Covered, Lean, HeadOk, PrevOk, Holds;
  }

  /** deflate_stored */
  method DeflateStored(s: DeflateState, flush: Flush) returns (state: BlockResult)
    requires StoredState(s) && s.Drained() && Open(s.sent)
    modifies s, s.m, s.m.window, s.m.prev, s.m.head, s.bs.parts
    ensures StoredState(s) && Outcome(s, flush, state)
        && Kept(old(Snapshot(s)), s)
  {
    hide BlockState.PartsOk, DeflateState.Sound, Resting, Direct;
    Widths(s);
    ghost var full, p := s.m.g.done + s.m.input, s.m.g.base + s.m.block_start;
    StartDirect(s, full, p);
    var input0 := s.m.input;
    var last;
    last, p := CopyDirect(s, flush, full, p);
    EndDirect(s, input0, full, p);
    Extent(s.m);
    if last { return FinishDone; }
    if flush != Z_NO_FLUSH && flush != Z_FINISH && s.m.input == []
        && s.m.strstart == s.m.block_start { return BlockDone; }
    state := PutRest(s, flush, full, p);
  }

  /** Read on, and put what waits into the pending buffer if it is worth that. */
  method PutRest(s: DeflateState, flush: Flush, ghost full: seq<byte>, ghost p: nat) returns (state: BlockResult)
    requires StoredState(s) && s.bs.w.pending == 0 && s.bs.w.bi_valid < 8 && Open(s.sent)
    requires NoneDirect(s, |full| - p, flush) && full == s.m.g.done + s.m.input && p == s.m.g.base + s.m.block_start
    requires flush == Z_NO_FLUSH || flush == Z_FINISH || s.m.input != [] || s.m.strstart != s.m.block_start
    modifies s`next_out, s`avail_out, s`sent, s.m`strstart, s.m`insert, s.m`block_start, s.m`g, s.m`high_water,
        s.m`input, s.m.window, s.bs.parts
    ensures StoredState(s) && Outcome(s, flush, state) && s.m.g.done + s.m.input == full
    ensures old(s.m.g).done <= s.m.g.done
    ensures old(s.sent) <= s.sent
  {
    hide BlockState.PartsOk, DeflateState.Sound, Resting;
    Widths(s);
    Extent(s.m);
    FillWaiting(s);
    Extent(s.m);
    state := PutPending(s, flush, |full| - p);
  }

  lemma {:induction false} Extent(m: Matcher)
    requires Keeping(m)
    ensures |m.g.done| == m.g.base + m.strstart && m.lookahead == 0
  {
    hide Matcher.Indexed;
  }

  /** Fill the window; the blocks sent still end where the waiting bytes begin. */
  method FillWaiting(s: DeflateState)
    requires StoredState(s)
    modifies s.m`strstart, s.m`insert, s.m`block_start, s.m`g, s.m`high_water, s.m`input, s.m.window
    ensures StoredState(s) && s.m.g.done + s.m.input == old(s.m.g.done + s.m.input) && old(s.m.g).done <= s.m.g.done
    ensures s.m.g.base + s.m.block_start == old(s.m.g.base + s.m.block_start)
    ensures s.m.input == [] || s.m.strstart - s.m.block_start >= s.m.w_size
  {
    hide Resting, BlockState.Valid, Writer.Stream, StreamBits, Covered, Lean;
    ghost var done, p := s.m.g.done, s.m.g.base + s.m.block_start;
    s.SoundApart(p);
    FillStored(s.m);
    CoverRead(s.marks, s.sent, s.bs.ts, done, s.m.g.done, p, p);
  }
}
