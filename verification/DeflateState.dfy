/** The state of a compressor (deflate.h, deflate.c): a matcher, the block at work, and the
    output that the caller has room for. Every operation keeps the account: the blocks sent and
    the tokens for the next one stand for exactly the input up to some position, and the bytes
    handed out, the pending bytes and the bits held are exactly the bits of the blocks sent. */
module DeflateState {
  import opened Bits
  import opened Blocks
  import opened Streams
  import opened Covers
  import opened Lz77
  import opened Trees
  import Hash
  import opened BitWriter
  import R = Rfc1951

  datatype Strategy = Z_DEFAULT_STRATEGY | Z_FILTERED | Z_HUFFMAN_ONLY | Z_RLE | Z_FIXED

  datatype Flush = Z_NO_FLUSH | Z_PARTIAL_FLUSH | Z_SYNC_FLUSH | Z_FULL_FLUSH | Z_FINISH | Z_BLOCK

  datatype Status = INIT_STATE | BUSY_STATE | FINISH_STATE

  datatype BlockResult = NeedMore | BlockDone | FinishStarted | FinishDone

  /** What the strategies exclude: matches at all, matches of a distance other than one, and blocks with
      codes of their own. */
  predicate TokenKind(strategy: Strategy, t: Token) {
    (strategy == Z_HUFFMAN_ONLY ==> t.Literal?) && (strategy == Z_RLE && t.Match? ==> t.dist == 1)
  }

  ghost predicate TokenKinds(strategy: Strategy, ts: seq<Token>) {
    forall i :: 0 <= i < |ts| ==> TokenKind(strategy, ts[i])
  }

  ghost predicate BlockKind(strategy: Strategy, f: Form) {
    match f
    case Stored(bytes) => true
    case Static(ts) => TokenKinds(strategy, ts)
    case Dynamic(ts, ll, dl, bl, n) => strategy != Z_FIXED && TokenKinds(strategy, ts)
  }

  ghost predicate Kinds(strategy: Strategy, sent: seq<Block>) {
    forall i :: 0 <= i < |sent| ==> BlockKind(strategy, sent[i].f)
  }

  class DeflateState {
    const m: Matcher
    const bs: BlockState
    const strategy: Strategy
    var status: Status
    var last_flush: int            // negative: none that counts
    var match_length: nat
    var prev_length: nat
    var prev_match: nat
    var match_available: bool
    var avail_out: nat
    var next_out: seq<byte>        // the bytes handed out in this call
    ghost var sent: seq<Block>
    ghost var marks: seq<Mark>     // where full flushes have been
    ghost var earlier: seq<byte>   // the bytes handed out in calls before
    ghost var room: nat            // avail_out at the start of this call
    ghost var credit: nat          // bits that the marks of flushes may take

    ghost predicate Apart() {
      && bs.PartsOk()
      && this as object !in bs.parts && m as object !in bs.parts
      && m.window as object !in bs.parts && m.prev as object !in bs.parts && m.head as object !in bs.parts
      && bs.lit_bufsize <= 32768
    }

    /** The bits sent are those of the blocks, wherever they are now. */
    ghost predicate Accounted()
      reads `sent, `marks, `earlier, `next_out, `avail_out, `room, bs.w, bs.w.buf
    {
      && bs.w.Valid() && AllOk(sent) && bs.w.Stream() == StreamBits(sent)
      && bs.w.gone == earlier + next_out && |next_out| + avail_out == room
    }

    /** The blocks and tokens stand for the input up to upto. */
    ghost predicate Sound(upto: nat)
      reads `sent, `marks, `earlier, `next_out, `avail_out, `room, `credit, m`g, m`block_start, bs.parts
    {
      && Apart() && bs.Valid() && Accounted()
      && Lean(sent, m.g.base + m.block_start, credit)
      && m.g.base + m.block_start >= 0 && Covered(marks, sent, bs.ts, m.g.done, m.g.base + m.block_start, upto)
      && Below(marks, m.g.floor) && Kinds(strategy, sent) && TokenKinds(strategy, bs.ts)
    }

    /** There is room for output, and nothing waits for it. */
    ghost predicate Drained()
      reads `avail_out, bs.w
    {
      avail_out > 0 && bs.w.pending == 0 && bs.w.bi_valid < 8
    }

    /** deflateInit2, for a raw stream, and lm_init */
    constructor (level: nat, w_bits: nat, mem_level: nat, strat: Strategy)
      requires level <= 9 && 9 <= w_bits <= 15 && 1 <= mem_level <= 9
      ensures Sound(0) && m.Valid() && m.Rolls(0) && bs.ts == [] && sent == [] && m.g.done == []
          && m.strstart == m.g.base == 0 && m.lookahead == m.insert == 0
      ensures m.level == level && strategy == strat && match_length == prev_length == 2 && !match_available
          && earlier == next_out == [] && marks == []
      ensures credit == 0
      ensures fresh(m) && fresh(m.window) && fresh(m.prev) && fresh(m.head) && fresh(bs.parts)
      ensures bs.w.pending == 0 && bs.w.bi_valid == 0 && bs.w.gone == [] && status == INIT_STATE && last_flush == -2
      ensures m.block_start == 0 && m.g.ins == {} && m.g.next == 0 && m.input == []
    {
      hide BlockState.PartsOk, Matcher.Valid, BlockState.Valid, Matcher.Rolls, Writer.Stream, Covered, Lean;
      Sizes(w_bits, mem_level);
      m := new Matcher(level, mem_level + 7, Pow2(w_bits));
      bs := new BlockState(Pow2(mem_level + 6));
      strategy, status, last_flush := strat, INIT_STATE, -2;
      match_length, prev_length, prev_match, match_available, avail_out, next_out := 2, 2, 0, false, 0, [];
      sent, marks, earlier, room, credit := [], [], [], 0, 0;
      new;
      CoverNothing();
      LeanNothing();
      assert earlier + next_out == [];
    }

    /** _tr_tally_lit */
    method TallyLit(c: byte, ghost upto: nat) returns (full: bool)
      requires Sound(upto) && upto < |m.g.done| && c == m.g.done[upto] && |bs.ts| + 1 < bs.lit_bufsize
      modifies bs.parts
      ensures unchanged(bs.w) && bs.ts == old(bs.ts) + [Literal(c)]
      ensures (old(m.Inserted()) ==> m.Inserted()) && (old(m.Valid()) ==> m.Valid())
      ensures Sound(upto + 1) && full == (|bs.ts| == bs.lit_bufsize - 1) && |bs.ts| == |old(bs.ts)| + 1
    {
      hide BlockState.PartsOk, BlockState.Valid, Covered, Lean, StreamBits, AllOk, Matcher.Valid, Matcher.Inserted;
      CoverLiteral(marks, sent, bs.ts, m.g.done, m.g.base + m.block_start, upto);
      TokenKindsMore(strategy, bs.ts, Literal(c));
      full := bs.Tally(0, c);
    }

    /** _tr_tally_dist */
    method TallyDist(distance: nat, length: byte, ghost upto: nat) returns (full: bool)
      requires Sound(upto) && Real(m.g.done, m.g.floor, upto, distance, length + 3) && distance <= 32768
          && |bs.ts| + 1 < bs.lit_bufsize && TokenKind(strategy, Match(length + 3, distance))
      modifies bs.parts
      ensures unchanged(bs.w) && bs.ts == old(bs.ts) + [Match(length + 3, distance)]
      ensures (old(m.Inserted()) ==> m.Inserted()) && (old(m.Valid()) ==> m.Valid())
      ensures Sound(upto + length + 3) && full == (|bs.ts| == bs.lit_bufsize - 1) && |bs.ts| == |old(bs.ts)| + 1
    {
      hide BlockState.PartsOk, BlockState.Valid, Covered, Lean, StreamBits, AllOk, Matcher.Valid, Matcher.Inserted;
      CoverMatch(marks, m.g.floor, sent, bs.ts, m.g.done, m.g.base + m.block_start, upto, distance, length + 3);
      TokenKindsMore(strategy, bs.ts, Match(length + 3, distance));
      full := bs.Tally(distance, length);
    }

    /** INSERT_STRING at strstart, for the search of its chain. */
    method InsertHere(ghost upto: nat) returns (hash_head: nat)
      requires Sound(upto) && m.Valid() && m.Rolls(m.strstart) && m.lookahead >= 1
      modifies m`ins_h, m`g, m.prev, m.head
      ensures Sound(upto) && m.Inserted() && m.g == old(m.g).(ins := m.g.ins, next := m.g.next)
          && (hash_head != 0 ==> hash_head < m.strstart)
      ensures (hash_head != 0 && m.strstart - hash_head <= m.w_size - MIN_LOOKAHEAD
               && m.strstart + MIN_LOOKAHEAD <= 2 * m.w_size)
          ==> m.Searching(hash_head)
    {
      hide BlockState.Valid, Accounted, Covered, Lean, Matcher.Valid, Matcher.Rolls, Matcher.Inserted,
           Matcher.Searching;
      hash_head := m.InsertHere();
    }

    /** Go on behind a match that deflate_fast has noted. */
    method TakeMatch(length: nat, ghost upto: nat)
      requires Sound(upto) && m.Inserted() && m.level <= 9 && Hash.MIN_MATCH <= length <= m.lookahead
          && length <= MAX_MATCH
      requires m.strstart + MIN_LOOKAHEAD <= 2 * m.w_size
      modifies m`strstart, m`lookahead, m`ins_h, m`g, m.prev, m.head
      ensures Sound(upto) && m.Valid() && m.Rolls(m.strstart) && m.strstart == old(m.strstart) + length
          && m.lookahead == old(m.lookahead) - length
      ensures m.g == old(m.g).(ins := m.g.ins, next := m.g.next)
    {
      hide BlockState.Valid, Accounted, Covered, Lean, Matcher.Valid, Matcher.Rolls, Matcher.Inserted;
      m.TakeMatch(length);
    }

    /** Go on behind a match that deflate_slow has noted. */
    method TakeLazy(length: nat, ghost upto: nat)
      requires Sound(upto) && m.Inserted() && Hash.MIN_MATCH <= length <= m.lookahead + 1 && m.strstart >= 1
      modifies m`strstart, m`lookahead, m`ins_h, m`g, m.prev, m.head
      ensures Sound(upto) && m.Valid() && m.Rolls(m.strstart) && m.strstart == old(m.strstart) + length - 1
          && m.lookahead == old(m.lookahead) + 1 - length
      ensures m.g == old(m.g).(ins := m.g.ins, next := m.g.next)
    {
      hide BlockState.Valid, Accounted, Covered, Lean, Matcher.Valid, Matcher.Rolls, Matcher.Inserted;
      m.TakeLazy(length);
    }

    /** flush_pending */
    method FlushPending(ghost upto: nat)
      requires Sound(upto) && (bs.w.out == 0 && bs.w.bi_valid >= 8 ==> bs.w.pending + 2 <= bs.w.buf.Length)
      modifies bs.parts, `avail_out, `next_out
      ensures Sound(upto) && bs.ts == old(bs.ts) && bs.w.bi_valid < 8 && (bs.w.pending == 0 || avail_out == 0)
      ensures avail_out <= old(avail_out) && (old(bs.w.bi_valid) == 0 ==> bs.w.bi_valid == 0)
      ensures old(bs.w.bi_valid) < 8 ==>
                avail_out == if old(bs.w.pending) < old(avail_out) then old(avail_out) - old(bs.w.pending) else 0
      ensures (old(m.Inserted()) ==> m.Inserted()) && (old(m.Valid()) ==> m.Valid())
    {
      hide BlockState.PartsOk, Covered, Lean, StreamBits, AllOk, BlockState.Valid, Writer.Stream, Matcher.Valid,
           Matcher.Inserted;
      var bytes := bs.HandOut(avail_out);
      next_out := next_out + bytes;
      avail_out := avail_out - |bytes|;
      assert bs.w.gone == earlier + next_out;
    }

    lemma {:induction false} SoundApart(upto: nat)
      requires Sound(upto)
      ensures Apart() && bs.lit_bufsize >= 64
    {
    }

    /** The bytes of the block, while they are in the window. */
    lemma {:induction false} DataIs()
      requires m.Indexed() && m.g.base + m.strstart <= |m.g.done| && 0 <= m.block_start <= m.strstart
      ensures m.strstart <= m.window.Length
          && m.window[m.block_start..m.strstart] == m.g.done[m.g.base + m.block_start..m.g.base + m.strstart]
    {
      hide BlockState.PartsOk, HeadOk, PrevOk;
      var n := |m.g.done| - m.g.base;
      assert m.window[..n][m.block_start..m.strstart] == m.window[m.block_start..m.strstart];
      assert m.g.done[m.g.base..][m.block_start..m.strstart]
          == m.g.done[m.g.base + m.block_start..m.g.base + m.strstart];
    }

    /** The call of _tr_flush_block. */
    method SendBlock(last: bool)
      requires Sound(m.g.base + m.strstart) && bs.w.pending == 0 && bs.w.bi_valid < 8 && m.level > 0 && m.Indexed()
      requires Open(sent) && (last || bs.ts != [])
      requires m.block_start >= 0 ==> m.strstart - m.block_start <= 0xffff
      modifies bs.parts, m`block_start, `sent
      ensures Sound(m.g.base + m.strstart) && bs.ts == [] && m.block_start == m.strstart && bs.w.out == 0
          && bs.w.pending + 2 <= bs.w.buf.Length
      ensures (old(m.Inserted()) ==> m.Inserted()) && (old(m.Valid()) ==> m.Valid())
      ensures |sent| == |old(sent)| + 1 && sent[..|old(sent)|] == old(sent) && sent[|old(sent)|].last == last
          && (last ==> bs.w.bi_valid == 0)
    {
      hide BlockState.PartsOk, StreamBits, AllOk, BlockState.Valid, Writer.Stream, BlockBits, FormOk, Padding;
      hide Matcher.Indexed, Matcher.Valid, Matcher.Inserted, Covered, Carries, Lean, Open, Closed, Chosen, OwnForm,
           BlockBytes, Kinds, Below, TokenKinds;
      NoTokenKinds(strategy);
      ghost var from, upto := m.g.base + m.block_start, m.g.base + m.strstart;
      Bounds(from, upto);
      var data := R.None;
      if m.block_start >= 0 {
        DataIs();
        data := R.Some(m.window[m.block_start..m.strstart]);
      }
      var stored_len := m.strstart - m.block_start;
      ghost var ts := bs.ts;
      ghost var f, own := bs.FlushBlock(data, stored_len, last, strategy == Z_FIXED, m.level);
      NoneShorter(f, own, ts, data, strategy == Z_FIXED);
      CarriesIs(f, ts, m.g.done[from..upto], data);
      PaddedIs(Block(f, last), StreamBits(sent));
      BlockSent(marks, sent, ts, m.g.done, from, upto, f, last, credit);
      ChosenKind(strategy, f, ts);
      KindsMore(strategy, sent, Block(f, last));
      sent := sent + [Block(f, last)];
      m.block_start := m.strstart;
      Bounds(upto, upto);
    }

    lemma {:induction false} Bounds(from: nat, upto: nat)
      requires Covered(marks, sent, bs.ts, m.g.done, from, upto)
      ensures from <= upto <= |m.g.done| && AllOk(sent)
    {
      hide BlockState.PartsOk;
      CoverRange(marks, sent, bs.ts, m.g.done, from, upto);
    }

    /** FLUSH_BLOCK_ONLY */
    method FlushBlockOnly(last: bool)
      requires Sound(m.g.base + m.strstart) && bs.w.pending == 0 && bs.w.bi_valid < 8 && m.level > 0 && m.Indexed()
          && Open(sent)
      requires last || bs.ts != []
      requires m.block_start >= 0 ==> m.strstart - m.block_start <= 0xffff
      modifies bs.parts, m`block_start, `sent, `avail_out, `next_out
      ensures Sound(m.g.base + m.strstart) && bs.ts == [] && m.block_start == m.strstart
      ensures bs.w.bi_valid < 8 && (bs.w.pending == 0 || avail_out == 0) && avail_out <= old(avail_out)
      ensures (old(m.Inserted()) ==> m.Inserted()) && (old(m.Valid()) ==> m.Valid())
      ensures old(sent) <= sent && if last then Closed(sent) && bs.w.bi_valid == 0 else Open(sent)
    {
      hide BlockState.PartsOk, Covered, Lean, Matcher.Indexed, Accounted, BlockState.Valid, Matcher.Valid,
           Matcher.Inserted;
      SendBlock(last);
      FlushPending(m.g.base + m.strstart);
    }

    /** The empty block that marks a flush: a static one, or a stored one. */
    method SendMark(static_: bool, ghost upto: nat)
      requires Sound(upto) && bs.ts == [] && m.g.base + m.block_start == upto && bs.w.pending == 0
          && bs.w.bi_valid < 8 && Open(sent)
      modifies bs.parts, `sent, `credit
      ensures credit == old(credit) + 64
      ensures Sound(upto) && bs.ts == [] && Open(sent) && bs.w.out == 0 && bs.w.bi_valid < 8
          && (!static_ ==> bs.w.bi_valid == 0)
      ensures sent == old(sent) + [Block(if static_ then Static([]) else Stored([]), false)]
    {
      hide BlockState.PartsOk, StreamBits, AllOk, BlockState.Valid, Writer.Stream, BlockBits, FormOk, Matcher.Valid,
           Matcher.Inserted, Covered, Lean;
      SoundApart(upto);
      Bounds(upto, upto);
      ghost var f: Form, bits := Stored([]), StreamBits(sent);
      if static_ {
        f := Static([]);
        bs.Align();
      } else {
        EmptyOk();
        bs.Store([], false);
      }
      assert m.g.done[upto..upto] == [];
      CarriesIs(f, [], m.g.done[upto..upto], R.Some([]));
      CoverBlock(marks, sent, [], m.g.done, upto, upto, f, false);
      PaddedIs(Block(f, false), bits);
      assert bits + BlockBits(f, false, |bits|) + [] == bits + BlockBits(f, false, |bits|);
      MarkBits(static_, |bits|);
      LeanMore(sent, Block(f, false), upto, 0, credit, 64);
      KindsMore(strategy, sent, Block(f, false));
      sent := sent + [Block(f, false)];
      credit := credit + 64;
      Bounds(upto, upto);
    }
  }

  lemma {:induction false} KindsMore(strategy: Strategy, sent: seq<Block>, b: Block)
    requires Kinds(strategy, sent) && BlockKind(strategy, b.f)
    ensures Kinds(strategy, sent + [b])
  {
    hide BlockKind;
  }

  lemma {:induction false} TokenKindsMore(strategy: Strategy, ts: seq<Token>, t: Token)
    requires TokenKinds(strategy, ts) && TokenKind(strategy, t)
    ensures TokenKinds(strategy, ts + [t])
  {
  }

  lemma {:induction false} NoTokenKinds(strategy: Strategy)
    ensures TokenKinds(strategy, [])
  {
  }

  lemma {:induction false} ChosenKind(strategy: Strategy, f: Form, ts: seq<Token>)
    requires TokenKinds(strategy, ts) && (strategy == Z_FIXED ==> !f.Dynamic?)
    requires (f.Static? ==> f.ts == ts) && (f.Dynamic? ==> f.dts == ts)
    ensures BlockKind(strategy, f)
  {
  }

  /** A block of tokens is sent. */
  lemma {:induction false} BlockSent(marks: seq<Mark>, sent: seq<Block>, ts: seq<Token>, done: seq<byte>, from: nat,
      upto: nat, f: Form, last: bool, credit: nat)
    requires Covered(marks, sent, ts, done, from, upto) && FormOk(f) && from <= upto <= |done|
    requires Carries(f, ts, done[from..upto])
    requires Lean(sent, from, credit) && Open(sent) && AllOk(sent) && (last || ts != [])
    requires |BlockBits(f, last, |StreamBits(sent)|)| <= 31 * |ts| + 27
    ensures Covered(marks, sent + [Block(f, last)], [], done, upto, upto) && AllOk(sent + [Block(f, last)])
    ensures StreamBits(sent + [Block(f, last)]) == StreamBits(sent) + PaddedBits(Block(f, last), |StreamBits(sent)|)
    ensures Lean(sent + [Block(f, last)], upto, credit)
  {
    hide BlockBits, PaddedBits, StreamBits, FormOk, Carries, Covered, Lean, AllOk, Open;
    CoverBlock(marks, sent, ts, done, from, upto, f, last);
    TokensIn(marks, sent, ts, done, from, upto);
    LeanMore(sent, Block(f, last), from, upto - from, credit, 0);
  }

  lemma {:induction false} MarkBits(static_: bool, at: nat)
    ensures var f := if static_ then Static([]) else Stored([]); FormOk(f) && |BlockBits(f, false, at)| <= 64
  {
    hide StaticL, StaticD, ToBits, BytesBits;
    StaticEnd();
    EmptyOk();
  }

  lemma {:induction false} StaticEnd()
    ensures |StaticL()| == 288 && StaticL()[256] == 7
  {
  }

  lemma {:induction false} TokensIn(marks: seq<Mark>, sent: seq<Block>, ts: seq<Token>, done: seq<byte>, from: nat,
      upto: nat)
    requires Covered(marks, sent, ts, done, from, upto)
    ensures from + |ts| <= upto
  {
    hide Restarts, AllOk, AllFitIn, Plain, AllFit, ApplyAll;
    BytesOfTokens(done[..from], ts);
  }

  lemma {:induction false} EmptyOk()
    ensures FormOk(Stored([]))
  {
  }

  lemma {:induction false} Sizes(w_bits: nat, mem_level: nat)
    requires 9 <= w_bits <= 15 && 1 <= mem_level <= 9
    ensures 512 <= Pow2(w_bits) <= 32768 && 128 <= Pow2(mem_level + 6) <= 32768
  {
    assert Pow2(7) == 128;
    assert Pow2(9) == 512;
    assert Pow2(15) == 64 * Pow2(9);
    Pow2Mono(9, w_bits);
    Pow2Mono(w_bits, 15);
    Pow2Mono(7, mem_level + 6);
    Pow2Mono(mem_level + 6, 15);
  }

  lemma {:induction false} CarriesIs(f: Form, ts: seq<Token>, bytes: seq<byte>, data: R.Option<seq<byte>>)
    requires data.Some? ==> data.value == bytes
    requires f.Stored? ==> data.Some? && f == Stored(data.value)
    requires f.Static? ==> f == Static(ts)
    requires f.Dynamic? ==> f == f.(dts := ts)
    ensures Carries(f, ts, bytes)
  {
  }

  lemma {:induction false} PaddedIs(b: Block, s: seq<bool>)
    requires FormOk(b.f)
    ensures s + PaddedBits(b, |s|) == s + BlockBits(b.f, b.last, |s|) + if b.last
        then Padding(|s| + |BlockBits(b.f, b.last, |s|)|) else []
  {
    hide BlockState.PartsOk, BlockBits, FormOk, Padding;
  }
}
