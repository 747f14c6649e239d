/** deflate (deflate.c) for raw streams: calls with any pieces of input, any room for output and
    any kind of flush, and what they add up to: at the end of the stream the bytes handed out
    decode to exactly the input. */
module Deflate {
  import opened Bits
  import opened BitWriter
  import opened Blocks
  import opened Streams
  import opened Covers
  import opened Lz77
  import opened Trees
  import opened DeflateState
  import opened Compress
  import opened DeflateStored
  import R = Rfc1951

  const Z_OK: int := 0
  const Z_STREAM_END: int := 1
  const Z_STREAM_ERROR: int := -2
  const Z_BUF_ERROR: int := -5

  /** RANK: Z_BLOCK comes between Z_NO_FLUSH and Z_PARTIAL_FLUSH. */
  function Rank(flush: Flush): int {
    match flush
    case Z_NO_FLUSH => 0
    case Z_BLOCK => 1
    case Z_PARTIAL_FLUSH => 2
    case Z_SYNC_FLUSH => 4
    case Z_FULL_FLUSH => 6
    case Z_FINISH => 8
  }

  /** What the compression function of the level and strategy keeps. */
  ghost predicate Mine(s: DeflateState)
    reads s`match_available, s`sent, s`marks, s`earlier, s`next_out, s`avail_out, s`room, s`credit, s`match_length,
        s`prev_length, s.m, s.m.window, s.m.prev, s.m.head, s.bs, s.bs.w, s.bs.parts
  {
    if s.m.level == 0 then StoredState(s)
    else Ready(s) && if !Hashing(s) then RunState(s) else if s.m.level <= 3 then FastState(s) else SlowState(s)
  }

  /** A stream that is being compressed, between two calls. */
  ghost predicate Between(s: DeflateState)
    reads s, s.m, s.m.window, s.m.prev, s.m.head, s.bs, s.bs.w, s.bs.parts
  {
    s.m.level <= 9 && Mine(s) && s.bs.w.bi_valid < 8 && Standing(s) && Rested(s)
  }

  /** When the last call was a flush that has come to its end, everything is in blocks that are out,
      and they end with the mark of that flush. */
  ghost predicate Rested(s: DeflateState)
    reads s`status, s`last_flush, s`sent, s`marks, s`match_available, s.m`lookahead, s.m`block_start, s.m`strstart,
        s.m`g, s.bs`ts, s.bs.w`bi_valid, s.bs.w`pending
  {
    s.status != FINISH_STATE && s.last_flush >= 1 ==> Empty(s) && s.bs.w.pending == 0 && Tagged(s, s.last_flush)
  }

  /** The empty stored block of a sync flush, and the mark of a full one. */
  ghost predicate Tagged(s: DeflateState, rank: int)
    reads s`sent, s`marks, s.m`g, s.bs.w`bi_valid
  {
    && (rank >= 4 ==>
          s.bs.w.bi_valid == 0 && s.sent != [] && s.sent[|s.sent| - 1] == Block(Stored([]), false))
    && (rank >= 6 ==> s.marks != [] && s.marks[|s.marks| - 1] == Mark(|s.sent|, |s.m.g.done|))
  }

  /** Once the last block is sent, nothing is left to do but to hand it out. */
  ghost predicate Standing(s: DeflateState)
    reads s`status, s`sent, s`match_available, s.m`lookahead, s.m`block_start, s.m`strstart, s.bs`ts, s.bs.w`bi_valid
  {
    if s.status == FINISH_STATE then Closed(s.sent) && Empty(s) && s.bs.w.bi_valid == 0 else Open(s.sent)
  }

  /** Where the blocks and tokens have got to. */
  ghost function Pos(s: DeflateState): int
    reads s`match_available, s.m
  {
    if s.m.level == 0 then s.m.g.base + s.m.block_start else Upto(s)
  }

  lemma {:induction false} MineSound(s: DeflateState)
    requires Mine(s)
    ensures Pos(s) >= 0 && s.Sound(Pos(s)) && s.Apart() && s.bs.w.Valid() && AllOk(s.sent)
    ensures s.bs.w.gone == s.earlier + s.next_out && |s.next_out| + s.avail_out == s.room
  {
    hide BlockState.Valid, Covered, Lean, Matcher.Valid, BlockState.PartsOk, Resting, StreamBits;
  }

  method Init(level: nat, w_bits: nat, mem_level: nat, strategy: Strategy) returns (s: DeflateState)
    requires level <= 9 && 9 <= w_bits <= 15 && 1 <= mem_level <= 9
    ensures Between(s) && s.m.g.done == [] && s.bs.w.gone == [] && s.sent == [] && s.status != FINISH_STATE
    ensures s.credit == 0 && s.marks == [] && s.strategy == strategy
    ensures fresh(s) && fresh(s.m) && fresh(s.m.window) && fresh(s.m.prev) && fresh(s.m.head) && fresh(s.bs.parts)
  {
    hide BlockState.PartsOk, Covered, Lean, StreamBits, BlockState.Valid, HeadOk, PrevOk, Holds, Matcher.Rolls;
    s := new DeflateState(level, w_bits, mem_level, strategy);
    BufSize(s, 0);
  }

  /** A call begins: the caller's input and room for output. */
  method Begin(s: DeflateState, input: seq<byte>, avail: nat)
    requires Mine(s)
    modifies s`earlier, s`next_out, s`avail_out, s`room, s.m`input
    ensures Mine(s) && s.m.input == input && s.avail_out == s.room == avail && s.next_out == []
        && s.earlier == s.bs.w.gone
  {
    hide Below, TokenKinds, AllOk, BlockState.Valid, Covered, Lean, Matcher.Valid, BlockState.PartsOk, Resting,
         StreamBits, Matcher.Rolls, Kinds, FastState, SlowState, RunState, Writer.Stream, Writer.Valid;
    MineSound(s);
    s.m.input := input;
    s.earlier, s.next_out, s.avail_out, s.room := s.bs.w.gone, [], avail, avail;
    assert s.earlier + [] == s.earlier;
  }

  /** flush_pending between blocks. */
  method HandOver(s: DeflateState)
    requires Mine(s) && s.bs.w.bi_valid < 8
    modifies s`next_out, s`avail_out, s.bs.parts
    ensures Mine(s) && s.bs.w.bi_valid < 8 && (s.bs.w.pending == 0 || s.avail_out == 0)
        && (old(s.bs.w.bi_valid) == 0 ==> s.bs.w.bi_valid == 0)
    ensures s.bs.ts == old(s.bs.ts)
    ensures s.avail_out == if old(s.bs.w.pending) < old(s.avail_out) then old(s.avail_out) - old(s.bs.w.pending) else 0
  {
    hide Below, TokenKinds, AllOk, BlockState.Valid, Covered, Lean, Matcher.Valid, BlockState.PartsOk, Resting,
         StreamBits, Matcher.Rolls,
         DeflateState.Sound;
    MineSound(s);
    s.FlushPending(Pos(s));
  }

  /** The compression function of the level and strategy. */
  method RunBlocks(s: DeflateState, flush: Flush) returns (state: BlockResult)
    requires Mine(s) && s.Drained() && Open(s.sent) && s.m.level <= 9
    modifies s, s.m, s.m.window, s.m.prev, s.m.head, s.bs.parts
    ensures Mine(s) && Outcome(s, flush, state)
        && Kept(old(Snapshot(s)), s)
  {
    hide Ready, StoredState, Outcome, Kept;
    if s.m.level == 0 {
      state := DeflateStored.DeflateStored(s, flush);
    } else if s.strategy == Z_HUFFMAN_ONLY || s.strategy == Z_RLE {
      state := DeflateRuns(s, flush);
    } else if s.m.level <= 3 {
      state := DeflateFast(s, flush);
    } else {
      state := DeflateSlow(s, flush);
    }
  }

  /** Send the empty block that marks a flush. */
  method PutMark(s: DeflateState, static_: bool)
    requires Mine(s) && Flushed(s) && Open(s.sent) && s.bs.w.pending == 0 && s.bs.w.bi_valid < 8
    modifies s`sent, s`credit, s.bs.parts
    ensures s.credit == old(s.credit) + 64
    ensures Mine(s) && Flushed(s) && Open(s.sent) && s.bs.w.out == 0 && s.bs.w.bi_valid < 8
        && (!static_ ==> s.bs.w.bi_valid == 0)
    ensures s.sent == old(s.sent) + [Block(if static_ then Static([]) else Stored([]), false)]
  {
    hide Below, TokenKinds, AllOk, BlockState.Valid, Covered, Lean, Matcher.Valid, BlockState.PartsOk, Resting,
         StreamBits, Matcher.Rolls,
         DeflateState.Sound;
    MineSound(s);
    BufSize(s, Pos(s));
    s.SendMark(static_, Pos(s));
  }

  /** A full flush forgets the history: decoding can start afresh behind it. */
  method Forget(s: DeflateState)
    requires Mine(s) && Flushed(s) && s.bs.w.bi_valid == 0 && Open(s.sent)
    modifies s`marks, s.m`strstart, s.m`block_start, s.m`insert, s.m`g, s.m.head
    ensures Mine(s) && Flushed(s) && s.m.g.done == old(s.m.g.done)
    ensures s.marks == old(s.marks) + [Mark(|s.sent|, |s.m.g.done|)]
  {
    hide Covered, Lean, BlockState.Valid, Matcher.Indexed, StreamBits, Matcher.Rolls, Kinds, Writer.Stream;
    MineSound(s);
    AtTheEnd(s);
    WholeBytes(s);
    FloorLow(s);
    CoverMark(s.marks, s.sent, s.m.g.done);
    ghost var marks := s.marks;
    s.marks := s.marks + [Mark(|s.sent|, |s.m.g.done|)];
    s.m.Forget();
    BelowAll(marks, Mark(|s.sent|, |s.m.g.done|), old(s.m.g.floor), s.m.g.floor);
  }

  lemma {:induction false} FloorLow(s: DeflateState)
    requires Mine(s)
    ensures s.m.g.floor <= |s.m.g.done|
  {
    hide HeadOk, PrevOk, DeflateState.Sound, Matcher.Rolls;
  }

  lemma {:induction false} BelowAll(marks: seq<Mark>, k: Mark, m: nat, n: nat)
    requires Below(marks, m) && m <= n && k.pos <= n
    ensures Below(marks + [k], n)
  {
  }

  lemma {:induction false} WholeBytes(s: DeflateState)
    requires Mine(s) && s.bs.w.bi_valid == 0
    ensures AllOk(s.sent) && |StreamBits(s.sent)| % 8 == 0
  {
    hide Covered, Lean, BlockState.Valid, Matcher.Valid, StreamBits, Matcher.Rolls, Kinds, BlockState.PartsOk, Resting;
    MineSound(s);
  }

  /** The stream ends with the mark of the flush. */
  ghost predicate Marked(s: DeflateState, flush: Flush)
    reads s`sent, s`marks, s.m`g, s.bs.w`bi_valid
  {
    match flush
    case Z_SYNC_FLUSH => Tagged(s, 4)
    case Z_FULL_FLUSH => Tagged(s, 6)
    case Z_PARTIAL_FLUSH => s.sent != [] && s.sent[|s.sent| - 1] == Block(Static([]), false)
    case _ => true
  }

  /** Only a full flush adds a mark, and that is where it has got to. */
  ghost predicate MarkedSince(marks: seq<Mark>, s: DeflateState, flush: Flush)
    reads s`sent, s`marks, s.m`g
  {
    s.marks == marks || (flush == Z_FULL_FLUSH && s.marks == marks + [Mark(|s.sent|, |s.m.g.done|)])
  }

  /** What deflate does when a block is done that was flushed: a mark for the decoder, and as
      much output as there is room for. */
  method FlushMark(s: DeflateState, flush: Flush)
    requires Mine(s) && Outcome(s, flush, BlockDone)
    modifies s`sent, s`marks, s`credit, s`next_out, s`avail_out, s.m`strstart, s.m`block_start, s.m`insert, s.m`g,
        s.m.head, s.bs.parts
    ensures s.credit <= old(s.credit) + 64 && old(s.sent) <= s.sent && MarkedSince(old(s.marks), s, flush)
    ensures Mine(s) && Flushed(s) && Open(s.sent) && s.bs.w.bi_valid < 8 && (s.bs.w.pending == 0 || s.avail_out == 0)
    ensures s.m.g.done == old(s.m.g.done)
    ensures Marked(s, flush)
  {
    hide Mine, BlockState.PartsOk, DeflateState.Sound;
    MineSound(s);
    if flush == Z_PARTIAL_FLUSH {
      PutMark(s, true);
    } else if flush != Z_BLOCK {
      PutMark(s, false);
      if flush == Z_FULL_FLUSH { Forget(s); }
    }
    HandOver(s);
  }

  /** Everything sent is out, but for the bits held. */
  ghost predicate Delivered(s: DeflateState)
    reads s, s.m, s.bs, s.bs.w
  {
    && s.bs.w.pending == 0 && AllOk(s.sent) && AllFitIn(s.sent) && Plain(s.sent) == s.m.g.done
    && BytesBits(s.bs.w.gone) <= StreamBits(s.sent) && |StreamBits(s.sent)| == 8 * |s.bs.w.gone| + s.bs.w.bi_valid
  }

  /** With nothing pending and all input in blocks, what has been handed out is what the blocks
      are as bits. */
  lemma {:induction false} AllDelivered(s: DeflateState)
    requires Mine(s) && Empty(s) && s.bs.w.pending == 0
    ensures Delivered(s)
  {
    hide BlockState.Valid, Matcher.Valid, BlockState.PartsOk, Resting, StreamBits, Matcher.Rolls, AllOk, AllFitIn,
         Plain, BytesBits, ToBits;
    MineSound(s);
    var p := Pos(s);
    assert p == |s.m.g.done| by { AtTheEnd(s); }
    assert s.m.g.done[..p] == s.m.g.done;
    NoBits();
    assert s.bs.w.buf[s.bs.w.out..s.bs.w.out] == [];
    assert s.bs.w.Stream() == BytesBits(s.bs.w.gone) + ToBits(s.bs.w.bi_buf, s.bs.w.bi_valid);
  }

  lemma {:induction false} AtTheEnd(s: DeflateState)
    requires Mine(s) && Empty(s)
    ensures Pos(s) == |s.m.g.done|
  {
    hide DeflateState.Sound, Matcher.Indexed, Matcher.Rolls;
  }

  /** Compress, and see to what follows. */
  method Work(s: DeflateState, flush: Flush) returns (ret: int)
    requires Mine(s) && s.Drained() && Open(s.sent) && s.m.level <= 9 && s.status != FINISH_STATE
    modifies s, s.m, s.m.window, s.m.prev, s.m.head, s.bs.parts
    ensures Mine(s) && Standing(s) && s.bs.w.bi_valid < 8
        && Kept(old(Snapshot(s)).(credit := s.credit, marks := s.marks, last_flush := s.last_flush), s)
    ensures ret == Z_OK || ret == Z_STREAM_END
    ensures ret == Z_OK ==> s.avail_out == 0 || s.m.input == []
    ensures ret == Z_OK && s.avail_out > 0 && flush != Z_NO_FLUSH && s.status != FINISH_STATE ==>
              Flushed(s) && s.bs.w.pending == 0 && Marked(s, flush)
    ensures ret == Z_STREAM_END ==> s.status == FINISH_STATE && s.m.input == [] && s.bs.w.pending == 0
    ensures flush == Z_FINISH && ret == Z_OK ==> s.avail_out == 0
    ensures s.status == FINISH_STATE ==> flush == Z_FINISH && s.m.input == []
    ensures s.credit <= old(s.credit) + 64 && MarkedSince(old(s.marks), s, flush)
    ensures ret == Z_OK ==> s.last_flush == if s.avail_out == 0 then -2 else old(s.last_flush)
  {
    hide Mine, BlockState.PartsOk, DeflateState.Sound, Tagged, Marked;
    var state := RunBlocks(s, flush);
    MineSound(s);
    ret := Z_OK;
    match state {
      case NeedMore =>
        s.status := BUSY_STATE;
        if s.avail_out == 0 { s.last_flush := -2; }
      case FinishStarted =>
        s.status := FINISH_STATE;
        if s.avail_out == 0 { s.last_flush := -2; }
      case FinishDone =>
        s.status := FINISH_STATE;
        ret := Z_STREAM_END;
      case BlockDone =>
        s.status := BUSY_STATE;
        FlushMark(s, flush);
        if s.avail_out == 0 { s.last_flush := -2; }
    }
  }

  lemma {:induction false} TaggedLess(s: DeflateState, m: int, n: int)
    ensures Tagged(s, m) && n <= m ==> Tagged(s, n)
  {
  }

  lemma {:induction false} MarkedTagged(s: DeflateState, flush: Flush)
    requires Marked(s, flush) && flush != Z_FINISH
    ensures Tagged(s, Rank(flush))
  {
  }

  /** With nothing pending, compress, if there is anything to do. */
  method Proceed(s: DeflateState, flush: Flush) returns (ret: int)
    requires Mine(s) && Standing(s) && s.Drained() && s.m.level <= 9 && s.last_flush == Rank(flush)
        && (s.status == FINISH_STATE ==> flush == Z_FINISH && s.m.input == [])
    modifies s, s.m, s.m.window, s.m.prev, s.m.head, s.bs.parts
    ensures Mine(s) && Standing(s) && s.bs.w.bi_valid < 8
        && Kept(old(Snapshot(s)).(credit := s.credit, marks := s.marks, last_flush := s.last_flush), s)
    ensures ret == Z_OK || ret == Z_STREAM_END
    ensures ret == Z_OK ==> s.avail_out == 0 || s.m.input == []
    ensures ret == Z_OK && s.avail_out > 0 && flush != Z_NO_FLUSH && s.status != FINISH_STATE ==>
              Flushed(s) && s.bs.w.pending == 0 && Marked(s, flush)
    ensures ret == Z_STREAM_END ==> s.status == FINISH_STATE && s.m.input == [] && s.bs.w.pending == 0
    ensures flush == Z_FINISH && ret == Z_OK ==> s.avail_out == 0
    ensures s.status == FINISH_STATE ==> old(s.status) == FINISH_STATE || (flush == Z_FINISH && s.m.input == [])
    ensures s.credit <= old(s.credit) + 64 && MarkedSince(old(s.marks), s, flush) && Rested(s)
    ensures ret == Z_OK ==> s.last_flush == if s.avail_out == 0 then -2 else Rank(flush)
    ensures old(s.status) == FINISH_STATE ==> s.status == FINISH_STATE
  {
    hide Mine, BlockState.PartsOk, DeflateState.Sound, Tagged;
    MineSound(s);
    if s.status == INIT_STATE { s.status := BUSY_STATE; }
    if s.m.input != [] || s.m.lookahead != 0 || (flush != Z_NO_FLUSH && s.status != FINISH_STATE) {
      ret := Work(s, flush);
      if ret == Z_OK && s.last_flush >= 1 && s.status != FINISH_STATE { MarkedTagged(s, flush); }
    } else {
      ret := if flush != Z_FINISH then Z_OK else Z_STREAM_END;
    }
  }

  /** A call of deflate, once input and output are set up. */
  method Call(s: DeflateState, flush: Flush) returns (ret: int)
    requires Mine(s) && Standing(s) && s.bs.w.bi_valid < 8 && s.m.level <= 9 && s.avail_out > 0 && Rested(s)
        && (s.status == FINISH_STATE ==> flush == Z_FINISH)
    modifies s, s.m, s.m.window, s.m.prev, s.m.head, s.bs.parts
    ensures Mine(s) && Standing(s) && s.bs.w.bi_valid < 8
        && Kept(old(Snapshot(s)).(credit := s.credit, marks := s.marks, last_flush := s.last_flush), s)
    ensures ret == Z_OK || ret == Z_STREAM_END || (ret == Z_BUF_ERROR && s.m.input == old(s.m.input))
    ensures ret == Z_OK ==> s.avail_out == 0 || s.m.input == []
    ensures ret == Z_OK && s.avail_out > 0 && flush != Z_NO_FLUSH && s.status != FINISH_STATE ==>
              Flushed(s) && s.bs.w.pending == 0 && Marked(s, flush)
    ensures ret == Z_STREAM_END ==> s.status == FINISH_STATE && s.m.input == [] && s.bs.w.pending == 0
    ensures flush == Z_FINISH && ret == Z_OK ==> s.avail_out == 0
    ensures ret == Z_BUF_ERROR <==>
              if old(s.status) == FINISH_STATE then old(s.m.input) != [] && old(s.bs.w.pending) < old(s.avail_out)
              else old(s.bs.w.pending) == 0 && old(s.m.input) == [] && flush != Z_FINISH
                   && Rank(flush) <= old(s.last_flush)
    ensures ret == Z_BUF_ERROR && s.status != FINISH_STATE && flush != Z_NO_FLUSH ==>
              Empty(s) && s.bs.w.pending == 0 && Tagged(s, Rank(flush))
    ensures s.status == FINISH_STATE ==> old(s.status) == FINISH_STATE || (flush == Z_FINISH && s.m.input == [])
    ensures s.credit <= old(s.credit) + 64 && MarkedSince(old(s.marks), s, flush) && Rested(s)
    ensures ret == Z_OK ==> s.last_flush == if s.avail_out == 0 then -2 else Rank(flush)
    ensures ret == Z_BUF_ERROR ==> s.last_flush == Rank(flush)
    ensures old(s.status) == FINISH_STATE ==> s.status == FINISH_STATE
  {
    hide Mine, BlockState.PartsOk, DeflateState.Sound, Tagged;
    MineSound(s);
    TaggedLess(s, s.last_flush, Rank(flush));
    var old_flush := s.last_flush;
    s.last_flush := Rank(flush);
    if s.bs.w.pending != 0 {
      HandOver(s);
      if s.avail_out == 0 {
        s.last_flush := -2;
        return Z_OK;
      }
    } else if s.m.input == [] && Rank(flush) <= old_flush && flush != Z_FINISH {
      return Z_BUF_ERROR;
    }
    if s.status == FINISH_STATE && s.m.input != [] { return Z_BUF_ERROR; }
    ret := Proceed(s, flush);
  }

  /** deflate: one call. */
  method Deflate(s: DeflateState, input: seq<byte>, avail: nat, flush: Flush)
      returns (ret: int, taken: nat, given: seq<byte>)
    requires Between(s)
    modifies s, s.m, s.m.window, s.m.prev, s.m.head, s.bs.parts
    ensures Between(s)
    ensures taken <= |input| && s.m.g.done == old(s.m.g.done) + input[..taken]
    ensures |given| <= avail && s.bs.w.gone == old(s.bs.w.gone) + given
    ensures ret == Z_OK ==> taken == |input| || |given| == avail
    ensures ret == Z_STREAM_END ==> s.status == FINISH_STATE && Delivered(s) && taken == |input|
    ensures ret == Z_OK && |given| < avail && flush != Z_NO_FLUSH && s.status != FINISH_STATE ==>
        Delivered(s) && Open(s.sent) && Marked(s, flush)
    ensures ret == Z_BUF_ERROR && avail > 0 && flush != Z_NO_FLUSH && s.status != FINISH_STATE ==>
        Delivered(s) && Open(s.sent) && Tagged(s, Rank(flush)) && input == []
    ensures ret == Z_STREAM_ERROR <==> old(s.status) == FINISH_STATE && flush != Z_FINISH
    ensures ret == Z_BUF_ERROR <==>
              if old(s.status) == FINISH_STATE then
                flush == Z_FINISH && (avail == 0 || (input != [] && old(s.bs.w.pending) < avail))
              else
                avail == 0 || (old(s.bs.w.pending) == 0 && input == [] && flush != Z_FINISH
                               && Rank(flush) <= old(s.last_flush))
    ensures ret == Z_BUF_ERROR || ret == Z_STREAM_ERROR ==> taken == 0
    ensures flush == Z_FINISH && avail > 0 && (old(s.status) != FINISH_STATE || input == []) ==>
              ret == Z_STREAM_END || (ret == Z_OK && |given| == avail)
    ensures s.status == FINISH_STATE ==> old(s.status) == FINISH_STATE || (flush == Z_FINISH && taken == |input|)
    ensures s.credit <= old(s.credit) + 64
    ensures ret == Z_OK || ret == Z_STREAM_END || ret == Z_BUF_ERROR || ret == Z_STREAM_ERROR
    ensures old(s.sent) <= s.sent && MarkedSince(old(s.marks), s, flush)
    ensures ret == Z_OK ==> s.last_flush == if |given| == avail then -2 else Rank(flush)
    ensures ret == Z_BUF_ERROR ==> s.last_flush == if avail == 0 then old(s.last_flush) else Rank(flush)
    ensures ret == Z_STREAM_ERROR ==> s.last_flush == old(s.last_flush)
    ensures Kinds(s.strategy, s.sent)
  {
    hide Mine, BlockState.PartsOk, DeflateState.Sound, Delivered, Standing, Flushed, Tagged;
    assert input[..0] == [];
    KindsAre(s);
    if s.status == FINISH_STATE && flush != Z_FINISH { return Z_STREAM_ERROR, 0, []; }
    if avail == 0 { return Z_BUF_ERROR, 0, []; }
    Begin(s, input, avail);
    ret := Call(s, flush);
    MineSound(s);
    TakenSoFar(old(s.m.g.done), input, s.m.g.done, s.m.input);
    taken, given := |input| - |s.m.input|, s.next_out;
    NowDelivered(s);
  }

  lemma {:induction false} NowDelivered(s: DeflateState)
    requires Mine(s) && Standing(s)
    ensures s.status != FINISH_STATE ==> Open(s.sent)
    ensures (s.status == FINISH_STATE || Empty(s)) && s.bs.w.pending == 0 ==> Delivered(s)
    ensures Flushed(s) ==> Empty(s) && s.m.input == []
    ensures Kinds(s.strategy, s.sent)
  {
    hide Mine, Delivered, Kinds;
    if (s.status == FINISH_STATE || Empty(s)) && s.bs.w.pending == 0 { AllDelivered(s); }
    KindsAre(s);
  }

  lemma {:induction false} KindsAre(s: DeflateState)
    requires Mine(s)
    ensures Kinds(s.strategy, s.sent)
  {
    hide Below, TokenKinds, AllOk, BlockState.Valid, Covered, Lean, Matcher.Valid, BlockState.PartsOk, Resting,
         StreamBits, Matcher.Rolls, Kinds;
    MineSound(s);
  }

  /** The output stays within a bound that the input and the flushes set. */
  lemma {:induction false} OutputBound(s: DeflateState)
    requires Between(s)
    ensures 8 * |s.bs.w.gone| <= 95 * |s.m.g.done| + s.credit + 64
  {
    hide BlockState.Valid, Matcher.Valid, BlockState.PartsOk, Resting, StreamBits, Matcher.Rolls, AllOk, AllFitIn,
         Plain;
    hide BytesBits, ToBits, Mine, AllFit, ApplyAll;
    MineSound(s);
  }

  lemma {:induction false} TakenSoFar(done0: seq<byte>, input: seq<byte>, done: seq<byte>, rest: seq<byte>)
    requires done + rest == done0 + input && done0 <= done
    ensures |rest| <= |input| && done == done0 + input[..|input| - |rest|]
  {
    assert done == (done0 + input)[..|done|];
  }
}
