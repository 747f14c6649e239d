/** The compression functions of deflate.c that look for matches: deflate_fast, deflate_slow,
    deflate_rle and deflate_huff. Whatever the window, the chains and the output do, the tokens
    noted stand for the input up to strstart, but for one byte that may be put off. */
module Compress {
  import opened Bits
  import opened Blocks
  import opened Streams
  import opened Covers
  import opened Lz77
  import opened Trees
  import opened DeflateState
  import opened Hash

  const TOO_FAR: nat := 4096

  /** Where the blocks and tokens have got to. */
  ghost function Upto(s: DeflateState): int
    reads s`match_available, s.m`g, s.m`strstart
  {
    s.m.g.base + s.m.strstart - if s.match_available then 1 else 0
  }

  /** The chains are kept up by level and strategy. */
  ghost predicate Hashing(s: DeflateState) {
    s.m.level > 0 && s.strategy != Z_HUFFMAN_ONLY && s.strategy != Z_RLE
  }

  /** All is in order, and there is a place for one more token. */
  ghost predicate Ready(s: DeflateState)
    reads s`match_available, s`sent, s`marks, s`earlier, s`next_out, s`avail_out, s`room, s`credit, s.m, s.m.window,
        s.m.prev, s.m.head, s.bs, s.bs.parts
  {
    && s.m.Valid() && |s.bs.ts| + 1 < s.bs.lit_bufsize && s.m.level >= 1
    && (Hashing(s) ==> s.m.Rolls(s.m.strstart))
    && Upto(s) >= 0 && s.Sound(Upto(s))
  }

  /** All input has been dealt with, and all of it is in blocks sent. */
  ghost predicate Flushed(s: DeflateState)
    reads s`match_available, s.m`lookahead, s.m`input, s.m`block_start, s.m`strstart, s.bs`ts
  {
    Empty(s) && s.m.input == []
  }

  /** All input that has been read is in blocks sent. */
  ghost predicate Empty(s: DeflateState)
    reads s`match_available, s.m`lookahead, s.m`block_start, s.m`strstart, s.bs`ts
  {
    s.m.lookahead == 0 && s.bs.ts == [] && !s.match_available && s.m.block_start == s.m.strstart
  }

  /** What the answer of a compression function means. */
  ghost predicate Outcome(s: DeflateState, flush: Flush, state: BlockResult)
    reads s, s.m, s.bs, s.bs.w
  {
    && s.bs.w.bi_valid < 8 && (s.bs.w.pending == 0 || s.avail_out == 0)
    && match state
       case NeedMore => Open(s.sent) && (s.avail_out == 0 || (flush == Z_NO_FLUSH && s.m.input == []))
       case BlockDone => Open(s.sent) && Flushed(s) && s.bs.w.pending == 0 && flush != Z_NO_FLUSH && flush != Z_FINISH
       case FinishStarted => Closed(s.sent) && Flushed(s) && flush == Z_FINISH && s.bs.w.bi_valid == 0
           && s.avail_out == 0
       case FinishDone =>
           Closed(s.sent) && Flushed(s) && s.bs.w.pending == 0 && flush == Z_FINISH
           && s.bs.w.bi_valid == 0
  }

  /** The end that all compression functions share, after the last token. */
  method Finish(s: DeflateState, flush: Flush) returns (state: BlockResult)
    requires s.m.Valid() && s.m.level >= 1 && !s.match_available && s.Sound(s.m.g.base + s.m.strstart)
    requires s.m.lookahead == 0 && s.m.input == [] && s.Drained() && Open(s.sent) && flush != Z_NO_FLUSH
    requires s.m.block_start >= 0 ==> s.m.strstart - s.m.block_start <= 0xffff
    modifies s`sent, s`avail_out, s`next_out, s.m`block_start, s.bs.parts
    ensures old(s.sent) <= s.sent
    ensures s.m.Valid() && s.Sound(s.m.g.base + s.m.strstart) && Outcome(s, flush, state)
        && (state == NeedMore ==> s.avail_out == 0)
    ensures s.bs.ts == []
  {
    hide BlockState.PartsOk, BlockState.Valid, DeflateState.Accounted, Covered, Lean, HeadOk, PrevOk, Holds;
    s.SoundApart(s.m.g.base + s.m.strstart);
    if flush == Z_FINISH {
      s.FlushBlockOnly(true);
      state := if s.avail_out == 0 then FinishStarted else FinishDone;
    } else {
      NothingNoted(s);
      if s.bs.sym_next != 0 {
        s.FlushBlockOnly(false);
      }
      state := if s.avail_out == 0 then NeedMore else BlockDone;
    }
  }

  /** After a turn: the block is sent when it is full. */
  method EndTurn(s: DeflateState, bflush: bool) returns (stop: bool)
    requires s.m.Valid() && s.m.level >= 1 && !s.match_available && s.Sound(s.m.g.base + s.m.strstart)
    requires |s.bs.ts| < s.bs.lit_bufsize && bflush == (|s.bs.ts| == s.bs.lit_bufsize - 1) && s.Drained()
        && Open(s.sent)
    requires s.m.block_start >= 0 ==> s.m.strstart - s.m.block_start <= 0xffff
    modifies s`sent, s`avail_out, s`next_out, s.m`block_start, s.bs.parts
    ensures old(s.sent) <= s.sent
    ensures s.m.Valid() && |s.bs.ts| + 1 < s.bs.lit_bufsize && s.Sound(s.m.g.base + s.m.strstart) && Open(s.sent)
    ensures s.bs.w.bi_valid < 8 && (s.bs.w.pending == 0 || s.avail_out == 0)
        && (if stop then s.avail_out == 0 else s.Drained())
    ensures if bflush then s.bs.ts == [] && s.m.block_start == s.m.strstart
        else s.bs.ts == old(s.bs.ts) && s.m.block_start == old(s.m.block_start)
  {
    hide BlockState.PartsOk, DeflateState.Sound, HeadOk, PrevOk, Holds;
    stop := false;
    BufSize(s, s.m.g.base + s.m.strstart);
    if bflush {
      s.FlushBlockOnly(false);
      stop := s.avail_out == 0;
    }
  }

  lemma {:induction false} BufSize(s: DeflateState, upto: nat)
    requires s.Sound(upto)
    ensures 64 <= s.bs.lit_bufsize <= 32768 && s.Apart()
  {
  }

  /** Without a token for it, there is no input in the block at work. */
  lemma {:induction false} NothingNoted(s: DeflateState)
    requires s.Sound(s.m.g.base + s.m.strstart)
    ensures s.bs.sym_next == 0 <==> s.bs.ts == []
    ensures s.bs.ts == [] ==> s.m.block_start == s.m.strstart
  {
  }

  /** What the loop does after a turn. */
  datatype Next = Again | Break | Stop

  /** All input is in the window and dealt with. */
  ghost predicate AtEnd(s: DeflateState)
    reads s.m
  {
    s.m.lookahead == 0 && s.m.input == [] && s.m.strstart + MIN_LOOKAHEAD <= 2 * s.m.w_size
  }

  /** What there was before: input, output, blocks and marks. */
  datatype Before = Before(done: seq<byte>, input: seq<byte>, earlier: seq<byte>, room: nat, credit: nat,
                           sent: seq<Block>, marks: seq<Mark>, last_flush: int)

  ghost function Snapshot(s: DeflateState): Before
    reads s, s.m
  {
    Before(s.m.g.done, s.m.input, s.earlier, s.room, s.credit, s.sent, s.marks, s.last_flush)
  }

  /** No input is lost, blocks are only added, and nothing from the calls before is touched. */
  ghost predicate Kept(b: Before, s: DeflateState)
    reads s, s.m
  {
    && s.m.g.done + s.m.input == b.done + b.input && b.done <= s.m.g.done && b.sent <= s.sent
    && s.earlier == b.earlier && s.room == b.room && s.credit == b.credit && s.marks == b.marks
    && s.last_flush == b.last_flush
  }

  /** How much input is left to deal with. */
  ghost function Left(s: DeflateState): int
    reads s.m
  {
    |s.m.g.done| + |s.m.input| - s.m.g.base - s.m.strstart
  }

  /** Fill the window; nothing that was sent or noted changes. */
  method Fill(s: DeflateState, ghost upto: nat)
    requires s.Sound(upto) && s.m.Valid() && s.m.lookahead < MIN_LOOKAHEAD
    modifies s.m, s.m.window, s.m.prev, s.m.head
    ensures s.Sound(upto) && s.m.Valid() && s.m.g.done + s.m.input == old(s.m.g.done + s.m.input)
        && old(s.m.g).done <= s.m.g.done
    ensures s.m.lookahead >= MIN_LOOKAHEAD || s.m.input == []
    ensures s.m.strstart + MIN_LOOKAHEAD < 2 * s.m.w_size
    ensures s.m.Moved(old(s.m.g), old(s.m.strstart), old(s.m.match_start), old(s.m.block_start))
    ensures s.m.g.base + s.m.strstart == old(s.m.g.base + s.m.strstart)
        && s.m.g.base + s.m.block_start == old(s.m.g.base + s.m.block_start)
    ensures old(s.m.Rolls(s.m.strstart)) ==> s.m.Rolls(s.m.strstart)
  {
    hide HeadOk, PrevOk, Holds, Matcher.Rolls, BlockState.Valid, DeflateState.Accounted, Covered, Lean;
    ghost var done := s.m.g.done;
    s.m.FillWindow();
    CoverRead(s.marks, s.sent, s.bs.ts, done, s.m.g.done, s.m.g.base + s.m.block_start, upto);
  }

  /** Keep the lookahead at need bytes or more, but for the end of the input. */
  method Refill(s: DeflateState, flush: Flush, need: nat) returns (next: Next)
    requires Ready(s) && 1 <= need <= MIN_LOOKAHEAD
    modifies s.m, s.m.window, s.m.prev, s.m.head
    ensures Ready(s) && Upto(s) == old(Upto(s)) && s.m.g.done + s.m.input == old(s.m.g.done + s.m.input)
        && old(s.m.g).done <= s.m.g.done
    ensures s.m.g.base + s.m.strstart == old(s.m.g.base + s.m.strstart)
        && s.m.g.base + s.m.block_start == old(s.m.g.base + s.m.block_start)
    ensures s.m.Moved(old(s.m.g), old(s.m.strstart), old(s.m.match_start), old(s.m.block_start))
    ensures s.m.lookahead < need && s.m.input != [] ==> false
    ensures match next
            case Again => s.m.lookahead >= 1
                && (s.m.strstart + MIN_LOOKAHEAD <= 2 * s.m.w_size || s.m.lookahead >= need)
            case Break => AtEnd(s) && flush != Z_NO_FLUSH
            case Stop => flush == Z_NO_FLUSH && s.m.input == []
  {
    hide BlockState.PartsOk, DeflateState.Sound, Matcher.Valid, Matcher.Rolls, Matcher.Moved;
    s.SoundApart(Upto(s));
    next := Again;
    Ahead(s.m);
    if s.m.lookahead < need {
      Fill(s, Upto(s));
      if s.m.lookahead < need && flush == Z_NO_FLUSH { return Stop; }
      if s.m.lookahead == 0 { return Break; }
    } else {
      Still(s.m);
    }
  }

  lemma {:induction false} Still(m: Matcher)
    requires m.Valid()
    ensures m.match_start < U32 && m.Moved(m.g, m.strstart, m.match_start, m.block_start)
  {
  }

  // ---- deflate_fast ----

  /** No match is ever put off. */
  ghost predicate FastState(s: DeflateState)
    reads s`match_available, s`prev_length, s`match_length
  {
    !s.match_available && s.prev_length == 2 && s.match_length < MIN_MATCH
  }

  /** Before each turn. */
  ghost predicate FastLoop(s: DeflateState)
    reads s, s.m, s.m.window, s.m.prev, s.m.head, s.bs, s.bs.parts, s.bs.w
  {
    Ready(s) && Hashing(s) && FastState(s) && s.Drained() && Open(s.sent)
  }

  /** deflate_fast */
  method DeflateFast(s: DeflateState, flush: Flush) returns (state: BlockResult)
    requires FastLoop(s)
    modifies s, s.m, s.m.window, s.m.prev, s.m.head, s.bs.parts
    ensures Ready(s) && FastState(s) && Outcome(s, flush, state)
        && Kept(old(Snapshot(s)), s)
  {
    hide Ready, FastLoop, FastState, Outcome;
    ghost var before := Snapshot(s);
    while true
      invariant FastLoop(s) && Kept(before, s)
      decreases Left(s)
    {
      var next := FastStep(s, flush);
      if next.Stop? { return NeedMore; }
      if next.Break? { break; }
    }
    state := FastEnd(s, flush);
  }

  method FastEnd(s: DeflateState, flush: Flush) returns (state: BlockResult)
    requires FastLoop(s) && AtEnd(s) && flush != Z_NO_FLUSH
    modifies s`sent, s`avail_out, s`next_out, s.m`block_start, s.m`insert, s.bs.parts
    ensures Ready(s) && FastState(s) && Outcome(s, flush, state)
        && Kept(old(Snapshot(s)), s)
  {
    hide BlockState.PartsOk, DeflateState.Sound, Matcher.Indexed, Matcher.Rolls;
    s.SoundApart(Upto(s));
    Ahead(s.m);
    s.m.insert := if s.m.strstart < MIN_MATCH - 1 then s.m.strstart else MIN_MATCH - 1;
    state := Finish(s, flush);
  }

  /** One time through the loop. */
  method FastStep(s: DeflateState, flush: Flush) returns (next: Next)
    requires FastLoop(s)
    modifies s, s.m, s.m.window, s.m.prev, s.m.head, s.bs.parts
    ensures Ready(s) && FastState(s)
        && Kept(old(Snapshot(s)), s)
    ensures next.Again? || next.Break? ==> FastLoop(s)
    ensures next.Again? ==> 0 <= Left(s) < old(Left(s))
    ensures next.Break? ==> AtEnd(s) && flush != Z_NO_FLUSH
    ensures next.Stop? ==> Outcome(s, flush, NeedMore)
  {
    hide BlockState.PartsOk, DeflateState.Sound, Matcher.Valid, Matcher.Rolls, Matcher.Moved;
    s.SoundApart(Upto(s));
    next := Refill(s, flush, MIN_LOOKAHEAD);
    if next.Again? {
      Ahead(s.m);
      var stop := FastGo(s);
      if stop { next := Stop; }
    }
  }

  /** A turn, and what comes after it. */
  method FastGo(s: DeflateState) returns (stop: bool)
    requires FastLoop(s) && s.m.lookahead >= 1 && s.m.strstart + MIN_LOOKAHEAD <= 2 * s.m.w_size
    modifies s`match_length, s`sent, s`avail_out, s`next_out, s.m, s.m.prev, s.m.head, s.bs.parts
    ensures old(s.sent) <= s.sent
    ensures Ready(s) && FastState(s) && Open(s.sent)
        && (if stop then s.avail_out == 0 && s.bs.w.bi_valid < 8 else s.Drained())
    ensures s.m.g.done == old(s.m.g.done) && s.m.input == old(s.m.input) && 0 <= Left(s) < old(Left(s))
  {
    hide BlockState.PartsOk, DeflateState.Sound, Matcher.Valid, Matcher.Rolls;
    s.SoundApart(Upto(s));
    var bflush := FastTurn(s);
    Ahead(s.m);
    stop := EndTurn(s, bflush);
  }

  /** One turn of deflate_fast: a match, if there is one, or a literal. */
  method FastTurn(s: DeflateState) returns (bflush: bool)
    requires Ready(s) && Hashing(s) && FastState(s) && s.m.lookahead >= 1
        && s.m.strstart + MIN_LOOKAHEAD <= 2 * s.m.w_size
    modifies s`match_length, s.m, s.m.prev, s.m.head, s.bs.parts
    ensures s.m.Valid() && s.m.Rolls(s.m.strstart) && s.Sound(s.m.g.base + s.m.strstart) && FastState(s)
    ensures unchanged(s.bs.w)
    ensures |s.bs.ts| == |old(s.bs.ts)| + 1 && bflush == (|s.bs.ts| == s.bs.lit_bufsize - 1)
    ensures s.m.g.done == old(s.m.g).done && s.m.input == old(s.m.input) && s.m.g.base == old(s.m.g).base
    ensures old(s.m.strstart) < s.m.strstart <= old(s.m.strstart) + MAX_MATCH
  {
    hide BlockState.PartsOk, DeflateState.Sound, Real, Matcher.Inserted, Matcher.Valid, Matcher.Rolls,
         Matcher.Searching, Matcher.Found;
    ghost var upto := s.m.g.base + s.m.strstart;
    s.SoundApart(upto);
    var hash_head := s.InsertHere(upto);
    if hash_head != 0 && s.m.strstart - hash_head <= s.m.w_size - MIN_LOOKAHEAD {
      s.match_length := s.m.Search(hash_head, s.prev_length);
    }
    bflush := NoteFast(s, s.match_length);
    if s.match_length >= MIN_MATCH { s.match_length := 0; }
  }

  /** Note the match found, or else the next byte, and go on behind it. */
  method NoteFast(s: DeflateState, length: nat) returns (bflush: bool)
    requires s.m.Inserted() && s.Sound(s.m.g.base + s.m.strstart) && |s.bs.ts| + 1 < s.bs.lit_bufsize && Hashing(s)
    requires length >= MIN_MATCH
        ==> length <= MAX_MATCH && length <= s.m.lookahead && s.m.Found(length)
            && s.m.strstart + MIN_LOOKAHEAD <= 2 * s.m.w_size
            modifies s.m`strstart, s.m`lookahead, s.m`ins_h, s.m`g, s.m.prev, s.m.head, s.bs.parts
    ensures s.m.Valid() && s.m.Rolls(s.m.strstart) && s.Sound(s.m.g.base + s.m.strstart) && unchanged(s.bs.w)
    ensures |s.bs.ts| == |old(s.bs.ts)| + 1 && bflush == (|s.bs.ts| == s.bs.lit_bufsize - 1)
    ensures s.m.g.done == old(s.m.g).done && s.m.g.base == old(s.m.g).base
    ensures old(s.m.strstart) < s.m.strstart <= old(s.m.strstart) + MAX_MATCH
  {
    hide BlockState.PartsOk, DeflateState.Sound, Real, Matcher.Inserted, Matcher.Valid, Matcher.Rolls;
    ghost var upto := s.m.g.base + s.m.strstart;
    s.SoundApart(upto);
    InsertedFacts(s.m);
    ThisByte(s.m, s.m.strstart);
    if length >= MIN_MATCH {
      bflush := s.TallyDist(s.m.strstart - s.m.match_start, length - MIN_MATCH, upto);
      s.TakeMatch(length, upto + length);
    } else {
      bflush := s.TallyLit(s.m.window[s.m.strstart], upto);
      s.m.Advance();
    }
  }

  // ---- deflate_rle and deflate_huff ----

  /** No match is put off, and with literals only the block is as long as its tokens are many. */
  ghost predicate RunState(s: DeflateState)
    reads s`match_available, s.m`strstart, s.m`block_start, s.bs`ts
  {
    && !s.match_available && s.m.level >= 1 && (s.strategy == Z_RLE || s.strategy == Z_HUFFMAN_ONLY)
    && (s.strategy == Z_HUFFMAN_ONLY ==> s.m.strstart - s.m.block_start == |s.bs.ts|)
  }

  ghost predicate RunLoop(s: DeflateState)
    reads s, s.m, s.m.window, s.m.prev, s.m.head, s.bs, s.bs.parts, s.bs.w
  {
    Ready(s) && RunState(s) && s.Drained() && Open(s.sent)
  }

  /** deflate_rle, and deflate_huff: they differ in the lookahead that they want, and in that
      deflate_huff does not look for runs. */
  method DeflateRuns(s: DeflateState, flush: Flush) returns (state: BlockResult)
    requires RunLoop(s)
    modifies s, s.m, s.m.window, s.m.prev, s.m.head, s.bs.parts
    ensures Ready(s) && RunState(s) && Outcome(s, flush, state)
        && Kept(old(Snapshot(s)), s)
  {
    hide Ready, RunLoop, RunState, Outcome;
    ghost var before := Snapshot(s);
    while true
      invariant RunLoop(s) && Kept(before, s)
      decreases Left(s)
    {
      var next := RunStep(s, flush);
      if next.Stop? { return NeedMore; }
      if next.Break? { break; }
    }
    state := RunEnd(s, flush);
  }

  method RunEnd(s: DeflateState, flush: Flush) returns (state: BlockResult)
    requires RunLoop(s) && AtEnd(s) && flush != Z_NO_FLUSH
    modifies s`sent, s`avail_out, s`next_out, s.m`block_start, s.m`insert, s.bs.parts
    ensures Ready(s) && RunState(s) && Outcome(s, flush, state)
        && Kept(old(Snapshot(s)), s)
  {
    hide BlockState.PartsOk, DeflateState.Sound, Matcher.Indexed, Matcher.Rolls;
    BufSize(s, Upto(s));
    Ahead(s.m);
    s.m.insert := 0;
    NothingNoted(s);
    state := Finish(s, flush);
    NothingNoted(s);
  }

  method RunStep(s: DeflateState, flush: Flush) returns (next: Next)
    requires RunLoop(s)
    modifies s, s.m, s.m.window, s.m.prev, s.m.head, s.bs.parts
    ensures Ready(s) && RunState(s)
        && Kept(old(Snapshot(s)), s)
    ensures next.Again? || next.Break? ==> RunLoop(s)
    ensures next.Again? ==> 0 <= Left(s) < old(Left(s))
    ensures next.Break? ==> AtEnd(s) && flush != Z_NO_FLUSH
    ensures next.Stop? ==> Outcome(s, flush, NeedMore)
  {
    hide BlockState.PartsOk, DeflateState.Sound, Matcher.Valid, Matcher.Rolls, Matcher.Moved;
    s.SoundApart(Upto(s));
    next := Refill(s, flush, if s.strategy == Z_RLE then MAX_MATCH + 1 else 1);
    if next.Again? {
      Ahead(s.m);
      var stop := RunGo(s);
      if stop { next := Stop; }
    }
  }

  method RunGo(s: DeflateState) returns (stop: bool)
    requires RunLoop(s) && s.m.lookahead >= 1 && (s.strategy == Z_RLE ==> s.m.strstart + MAX_MATCH < 2 * s.m.w_size)
    modifies s`match_length, s`sent, s`avail_out, s`next_out, s.m, s.bs.parts
    ensures old(s.sent) <= s.sent
    ensures Ready(s) && RunState(s) && Open(s.sent)
        && (if stop then s.avail_out == 0 && s.bs.w.bi_valid < 8 else s.Drained())
    ensures s.m.g.done == old(s.m.g.done) && s.m.input == old(s.m.input) && 0 <= Left(s) < old(Left(s))
  {
    hide BlockState.PartsOk, DeflateState.Sound, Matcher.Valid, Matcher.Rolls;
    BufSize(s, Upto(s));
    var bflush := RunTurn(s);
    Ahead(s.m);
    stop := EndTurn(s, bflush);
    NothingNoted(s);
  }

  /** How long the last byte repeats in the lookahead, if deflate_rle can see that. */
  ghost function RunHere(s: DeflateState): nat
    requires Ready(s) && RunState(s) && (s.strategy == Z_RLE ==> s.m.strstart + MAX_MATCH < 2 * s.m.w_size)
    reads s`match_available, s`sent, s`marks, s`earlier, s`next_out, s`avail_out, s`room, s`credit, s.m, s.m.window,
        s.m.prev, s.m.head, s.bs, s.bs.parts
  {
    if s.strategy == Z_RLE && s.m.lookahead >= MIN_MATCH && s.m.strstart > 0 then
      var k := s.m.RunOf(s.m.strstart);
      if k <= s.m.lookahead then k else s.m.lookahead
    else 0
  }

  /** One turn of deflate_rle or deflate_huff: the run as a match, if it is long enough, or the byte. */
  method RunTurn(s: DeflateState) returns (bflush: bool)
    requires Ready(s) && RunState(s) && s.m.lookahead >= 1
        && (s.strategy == Z_RLE ==> s.m.strstart + MAX_MATCH < 2 * s.m.w_size)
    modifies s`match_length, s.m`strstart, s.m`lookahead, s.bs.parts
    ensures s.m.Valid() && s.Sound(s.m.g.base + s.m.strstart) && RunState(s) && unchanged(s.bs.w)
    ensures |s.bs.ts| == |old(s.bs.ts)| + 1 && bflush == (|s.bs.ts| == s.bs.lit_bufsize - 1)
    ensures s.m.strstart > old(s.m.strstart)
    ensures s.strategy == Z_RLE ==> s.m.strstart <= old(s.m.strstart) + MAX_MATCH
    ensures |s.m.g.done| > old(s.m.g.base + s.m.strstart)
    ensures s.bs.ts == old(s.bs.ts) + [if old(RunHere(s)) >= MIN_MATCH then Match(old(RunHere(s)), 1)
                                       else Literal(s.m.g.done[old(s.m.g.base + s.m.strstart)])]
  {
    hide BlockState.PartsOk, DeflateState.Sound, Real, Matcher.Valid, Matcher.Rolls, Matcher.RunOf;
    ghost var upto, k := s.m.g.base + s.m.strstart, RunHere(s);
    s.SoundApart(upto);
    Ahead(s.m);
    s.match_length := 0;
    if s.strategy == Z_RLE {
      s.match_length := s.m.RunLength();
    }
    assert s.match_length == k;
    bflush := NoteRun(s, s.match_length);
    if s.match_length >= MIN_MATCH { s.match_length := 0; }
  }

  /** Note a run, or else the next byte, and go on behind it. */
  method NoteRun(s: DeflateState, length: nat) returns (bflush: bool)
    requires s.m.Valid() && s.m.lookahead >= 1 && s.Sound(s.m.g.base + s.m.strstart) && |s.bs.ts| + 1 < s.bs.lit_bufsize
    requires length <= MAX_MATCH && length <= s.m.lookahead
    requires length >= MIN_MATCH ==>
               s.strategy == Z_RLE && Real(s.m.g.done, s.m.g.floor, s.m.g.base + s.m.strstart, 1, length)
    modifies s.m`strstart, s.m`lookahead, s.bs.parts
    ensures s.m.Valid() && s.Sound(s.m.g.base + s.m.strstart) && unchanged(s.bs.w)
    ensures |s.bs.ts| == |old(s.bs.ts)| + 1 && bflush == (|s.bs.ts| == s.bs.lit_bufsize - 1)
    ensures s.m.strstart == old(s.m.strstart) + if length >= MIN_MATCH then length else 1
    ensures |s.m.g.done| > old(s.m.g.base + s.m.strstart)
    ensures s.bs.ts == old(s.bs.ts) + [if length >= MIN_MATCH then Match(length, 1)
                                       else Literal(s.m.g.done[old(s.m.g.base + s.m.strstart)])]
  {
    hide BlockState.PartsOk, DeflateState.Sound, Real, Matcher.Valid, Matcher.Rolls;
    ghost var upto := s.m.g.base + s.m.strstart;
    s.SoundApart(upto);
    Ahead(s.m);
    if length >= MIN_MATCH {
      bflush := s.TallyDist(1, length - MIN_MATCH, upto);
      s.m.Skip(length);
    } else {
      NextByte(s.m);
      bflush := s.TallyLit(s.m.window[s.m.strstart], upto);
      s.m.Skip(1);
    }
  }

  lemma {:induction false} NextByte(m: Matcher)
    requires m.Valid() && m.lookahead >= 1
    ensures m.strstart < m.window.Length && m.g.base + m.strstart < |m.g.done|
        && m.window[m.strstart] == m.g.done[m.g.base + m.strstart]
  {
    hide HeadOk, PrevOk, Holds;
    m.WindowIs(m.strstart);
  }

  // ---- deflate_slow ----

  /** A match of k bytes for the string at absolute position a, which is place p - 1 of the
      window: it starts at place start, or, when that has wrapped around, just before place 0. */
  ghost predicate PutOff(done: seq<byte>, floor: nat, a: int, p: nat, start: nat, k: nat, w: nat) {
    && a >= 0 && 1 <= p < U32 && start < U32
    && Real(done, floor, a, Sub32(p - 1, start), k) && Sub32(p - 1, start) + MIN_LOOKAHEAD <= w
  }

  /** A match that is put off is still one after more input and a slide of the window. */
  lemma {:induction false} PutOffMoves(done: seq<byte>, more: seq<byte>, floor: nat, a: int, p: nat, start: nat, k: nat,
      w: nat)
    requires PutOff(done, floor, a, p, start, k, w) && done <= more
    ensures PutOff(more, floor, a, p, start, k, w)
    ensures p > w ==> PutOff(more, floor, a, p - w, Sub32(start, w), k, w)
  {
    var d := Sub32(p - 1, start);
    var b := a - d;
    forall i: nat | i < k ensures SameAt(more, b, a, i) {
      assert SameAt(done, b, a, i);
    }
    if p > w { SlidDistance(p, start, w); }
  }

  /** The byte before strstart may be put off, and then, perhaps, with a match for it. */
  ghost predicate SlowState(s: DeflateState)
    reads s`match_length, s`match_available, s.m`g, s.m`strstart, s.m`lookahead, s.m`match_start
  {
    && 2 <= s.match_length <= MAX_MATCH && (s.match_available ==> s.m.strstart >= 1)
    && (s.match_length >= MIN_MATCH ==>
         s.match_available && s.match_length - 1 <= s.m.lookahead
         && PutOff(s.m.g.done, s.m.g.floor, s.m.g.base + s.m.strstart - 1, s.m.strstart, s.m.match_start,
             s.match_length, s.m.w_size))
  }

  /** Once the string at strstart has been looked up: the match put off is the previous one, and
      a longer one may have been found. */
  ghost predicate Looked(s: DeflateState)
    reads s, s.m
  {
    && 2 <= s.match_length <= MAX_MATCH && 2 <= s.prev_length <= MAX_MATCH && (s.match_available ==> s.m.strstart >= 1)
    && (s.prev_length >= MIN_MATCH ==>
         s.match_available && s.prev_length - 1 <= s.m.lookahead
         && PutOff(s.m.g.done, s.m.g.floor, s.m.g.base + s.m.strstart - 1, s.m.strstart, s.prev_match,
             s.prev_length, s.m.w_size))
    && (s.match_length >= MIN_MATCH && s.match_length > s.prev_length
        ==> s.match_length <= s.m.lookahead
            && s.m.Found(s.match_length))
  }

  /** Look the string at strstart up. */
  method Look(s: DeflateState, ghost upto: nat)
    requires s.Sound(upto) && s.m.Valid() && s.m.Rolls(s.m.strstart) && Hashing(s) && SlowState(s)
    requires s.m.lookahead >= 1 && s.m.strstart + MIN_LOOKAHEAD <= 2 * s.m.w_size
    modifies s`match_length, s`prev_length, s`prev_match, s.m`match_start, s.m`ins_h, s.m`g, s.m.prev, s.m.head
    ensures s.Sound(upto) && s.m.Inserted() && Looked(s) && s.m.g == old(s.m.g).(ins := s.m.g.ins, next := s.m.g.next)
  {
    hide BlockState.PartsOk, DeflateState.Sound, PutOff, Matcher.Inserted, Matcher.Valid, Matcher.Rolls,
         Matcher.Found, Matcher.Searching;
    s.SoundApart(upto);
    Ahead(s.m);
    var hash_head := s.InsertHere(upto);
    s.prev_length, s.prev_match := s.match_length, s.m.match_start;
    s.match_length := MIN_MATCH - 1;
    ThisByte(s.m, s.m.strstart);
    if hash_head != 0 && s.prev_length < MaxLazy(s.m.level) && s.m.strstart - hash_head <= s.m.w_size - MIN_LOOKAHEAD {
      SearchLonger(s, hash_head);
    }
  }

  /** Search for a longer match, but do without one that is short and far away. */
  method SearchLonger(s: DeflateState, hash_head: nat)
    requires s.m.Inserted() && s.m.Searching(hash_head) && 1 <= s.m.level && 2 <= s.prev_length <= MAX_MATCH
    modifies s`match_length, s.m`match_start
    ensures s.m.Inserted() && 2 <= s.match_length <= MAX_MATCH
    ensures s.match_length > s.prev_length && s.match_length >= MIN_MATCH
        ==> s.match_length <= s.m.lookahead
            && s.m.Found(s.match_length)
  {
    hide Real, Matcher.Inserted, Matcher.Rolls, Matcher.Found, HeadOk, PrevOk, Entry, KeyAt, Holds;
    ThisByte(s.m, s.m.strstart);
    s.match_length := s.m.Search(hash_head, s.prev_length);
    ThisByte(s.m, s.m.strstart);
    if s.match_length <= 5 && (s.strategy == Z_FILTERED
        || (s.match_length == MIN_MATCH && Sub32(s.m.strstart, s.m.match_start) > TOO_FAR)) {
      s.match_length := MIN_MATCH - 1;
    }
  }

  /** The match that was put off is the one to take. */
  method TakePrevious(s: DeflateState) returns (bflush: bool)
    requires s.m.g.base + s.m.strstart >= 1 && s.Sound(s.m.g.base + s.m.strstart - 1)
    requires s.prev_length >= MIN_MATCH && s.m.Inserted() && Looked(s) && |s.bs.ts| + 1 < s.bs.lit_bufsize && Hashing(s)
    modifies s`match_length, s`prev_length, s`match_available, s.m`strstart, s.m`lookahead, s.m`ins_h, s.m`g,
        s.m.prev, s.m.head, s.bs.parts
    ensures s.Sound(s.m.g.base + s.m.strstart) && s.m.Valid() && s.m.Rolls(s.m.strstart) && SlowState(s)
        && !s.match_available && unchanged(s.bs.w)
    ensures |s.bs.ts| == |old(s.bs.ts)| + 1 && bflush == (|s.bs.ts| == s.bs.lit_bufsize - 1)
    ensures s.m.g == old(s.m.g).(ins := s.m.g.ins, next := s.m.g.next)
        && old(s.m.strstart) < s.m.strstart <= old(s.m.strstart) + MAX_MATCH
  {
    hide BlockState.PartsOk, DeflateState.Sound, Real, Matcher.Inserted, Matcher.Valid, Matcher.Rolls;
    ghost var upto := s.m.g.base + s.m.strstart - 1;
    s.SoundApart(upto);
    ThisByte(s.m, s.m.strstart);
    bflush := s.TallyDist(Sub32(s.m.strstart - 1, s.prev_match), s.prev_length - MIN_MATCH, upto);
    s.TakeLazy(s.prev_length, upto + s.prev_length);
    s.prev_length := 0;
    s.match_available := false;
    s.match_length := MIN_MATCH - 1;
  }

  /** No match for the byte put off, or a longer one for the next: it is sent as it is. */
  method TakeLiteral(s: DeflateState) returns (stop: bool)
    requires s.m.g.base + s.m.strstart >= 1 && s.Sound(s.m.g.base + s.m.strstart - 1)
    requires s.m.Inserted() && Looked(s) && |s.bs.ts| + 1 < s.bs.lit_bufsize && s.match_available && s.m.level >= 1
    requires s.prev_length >= MIN_MATCH ==> s.match_length > s.prev_length
    requires s.Drained() && Open(s.sent) && s.m.strstart <= 0xffff
    modifies s`sent, s`avail_out, s`next_out, s.m`block_start, s.m`strstart, s.m`lookahead, s.bs.parts
    ensures old(s.sent) <= s.sent
    ensures s.m.g.base + s.m.strstart >= 1 && s.Sound(s.m.g.base + s.m.strstart - 1) && s.m.Valid()
        && s.m.Rolls(s.m.strstart) && SlowState(s)
    ensures |s.bs.ts| + 1 < s.bs.lit_bufsize && Open(s.sent) && s.m.strstart == old(s.m.strstart) + 1
    ensures s.bs.w.bi_valid < 8 && (s.bs.w.pending == 0 || s.avail_out == 0)
        && (if stop then s.avail_out == 0 else s.Drained())
  {
    hide BlockState.PartsOk, DeflateState.Sound, PutOff, Matcher.Inserted, Matcher.Valid, Matcher.Rolls, Matcher.Found;
    ghost var upto := s.m.g.base + s.m.strstart - 1;
    BufSize(s, upto);
    InsertedFacts(s.m);
    if s.match_length >= MIN_MATCH { FoundIsPutOff(s.m, s.match_length); }
    ThisByte(s.m, s.m.strstart - 1);
    var bflush := s.TallyLit(s.m.window[s.m.strstart - 1], upto);
    if bflush {
      StillIndexed(s.m);
      s.FlushBlockOnly(false);
    }
    s.m.Advance();
    stop := s.avail_out == 0;
  }

  lemma {:induction false} StillIndexed(m: Matcher)
    requires m.Inserted()
    ensures m.Indexed()
  {
  }

  /** Once strstart has moved on, a match that was found for it is one that is put off. */
  lemma {:induction false} FoundIsPutOff(m: Matcher, k: nat)
    requires m.Found(k) && k <= m.lookahead && m.strstart < U32 - 1
    ensures m.match_start < U32
        && PutOff(m.g.done, m.g.floor, m.g.base + m.strstart, m.strstart + 1, m.match_start, k, m.w_size)
  {
  }

  /** Put the byte at strstart off. */
  method PutByteOff(s: DeflateState)
    requires s.Sound(s.m.g.base + s.m.strstart) && s.m.Inserted() && Looked(s) && !s.match_available
    modifies s`match_available, s.m`strstart, s.m`lookahead
    ensures s.m.g.base + s.m.strstart >= 1 && s.Sound(s.m.g.base + s.m.strstart - 1) && s.m.Valid()
        && s.m.Rolls(s.m.strstart) && SlowState(s)
    ensures s.match_available && s.m.strstart == old(s.m.strstart) + 1
  {
    hide BlockState.PartsOk, DeflateState.Sound, PutOff, Matcher.Inserted, Matcher.Valid, Matcher.Rolls, Matcher.Found;
    s.SoundApart(s.m.g.base + s.m.strstart);
    InsertedFacts(s.m);
    if s.match_length >= MIN_MATCH { FoundIsPutOff(s.m, s.match_length); }
    s.match_available := true;
    s.m.Advance();
  }

  ghost predicate SlowLoop(s: DeflateState)
    reads s, s.m, s.m.window, s.m.prev, s.m.head, s.bs, s.bs.parts, s.bs.w
  {
    Ready(s) && Hashing(s) && SlowState(s) && s.Drained() && Open(s.sent)
  }

  /** deflate_slow */
  method DeflateSlow(s: DeflateState, flush: Flush) returns (state: BlockResult)
    requires SlowLoop(s)
    modifies s, s.m, s.m.window, s.m.prev, s.m.head, s.bs.parts
    ensures Ready(s) && SlowState(s) && Outcome(s, flush, state)
        && Kept(old(Snapshot(s)), s)
  {
    hide Ready, SlowLoop, SlowState, Outcome;
    ghost var before := Snapshot(s);
    while true
      invariant SlowLoop(s) && Kept(before, s)
      decreases Left(s)
    {
      var next := SlowStep(s, flush);
      if next.Stop? { return NeedMore; }
      if next.Break? { break; }
    }
    state := SlowEnd(s, flush);
  }

  method SlowEnd(s: DeflateState, flush: Flush) returns (state: BlockResult)
    requires SlowLoop(s) && AtEnd(s) && flush != Z_NO_FLUSH
    modifies s`sent, s`avail_out, s`next_out, s`match_available, s.m`block_start, s.m`insert, s.bs.parts
    ensures Ready(s) && SlowState(s) && Outcome(s, flush, state)
        && Kept(old(Snapshot(s)), s)
  {
    hide BlockState.PartsOk, DeflateState.Sound, Matcher.Indexed, Matcher.Rolls, PutOff;
    SlowLast(s);
    BufSize(s, Upto(s));
    Ahead(s.m);
    s.m.insert := if s.m.strstart < MIN_MATCH - 1 then s.m.strstart else MIN_MATCH - 1;
    state := Finish(s, flush);
  }

  /** The last byte put off is noted. */
  method SlowLast(s: DeflateState)
    requires SlowLoop(s) && s.m.lookahead == 0
    modifies s`match_available, s.bs.parts
    ensures s.m.Valid() && s.m.Rolls(s.m.strstart) && !s.match_available && s.match_length == 2
        && s.Sound(s.m.g.base + s.m.strstart)
    ensures unchanged(s.bs.w)
  {
    hide BlockState.PartsOk, DeflateState.Sound, Matcher.Valid, Matcher.Rolls, PutOff;
    BufSize(s, Upto(s));
    Ahead(s.m);
    if s.match_available {
      LastByte(s.m, s.m.strstart - 1);
      var bflush := s.TallyLit(s.m.window[s.m.strstart - 1], Upto(s));
      s.match_available := false;
    }
  }

  method SlowStep(s: DeflateState, flush: Flush) returns (next: Next)
    requires SlowLoop(s)
    modifies s, s.m, s.m.window, s.m.prev, s.m.head, s.bs.parts
    ensures Ready(s) && SlowState(s)
        && Kept(old(Snapshot(s)), s)
    ensures next.Again? || next.Break? ==> SlowLoop(s)
    ensures next.Again? ==> 0 <= Left(s) < old(Left(s))
    ensures next.Break? ==> AtEnd(s) && flush != Z_NO_FLUSH
    ensures next.Stop? ==> Outcome(s, flush, NeedMore)
  {
    hide BlockState.PartsOk, DeflateState.Sound, Matcher.Valid, Matcher.Rolls, SlowState;
    s.SoundApart(Upto(s));
    ghost var g0, p0, m0, b0 := s.m.g, s.m.strstart, s.m.match_start, s.m.block_start;
    next := SlowRefill(s, flush);
    if next.Again? {
      Ahead(s.m);
      var stop := SlowGo(s);
      if stop { next := Stop; }
    }
  }

  /** Refill the window; a match put off is still one. */
  method SlowRefill(s: DeflateState, flush: Flush) returns (next: Next)
    requires Ready(s) && SlowState(s)
    modifies s.m, s.m.window, s.m.prev, s.m.head
    ensures Ready(s) && SlowState(s) && s.m.g.done + s.m.input == old(s.m.g.done + s.m.input)
        && old(s.m.g).done <= s.m.g.done
    ensures s.m.g.base + s.m.strstart == old(s.m.g.base + s.m.strstart)
    ensures match next
            case Again => s.m.lookahead >= 1
                && (s.m.strstart + MIN_LOOKAHEAD <= 2 * s.m.w_size || s.m.lookahead >= MIN_LOOKAHEAD)
            case Break => AtEnd(s) && flush != Z_NO_FLUSH
            case Stop => flush == Z_NO_FLUSH && s.m.input == []
  {
    hide BlockState.PartsOk, DeflateState.Sound, Matcher.Valid, Matcher.Rolls, PutOff;
    Ahead(s.m);
    ghost var done, a, p, start, k, w := s.m.g.done, s.m.g.base + s.m.strstart - 1, s.m.strstart, s.m.match_start,
        s.match_length, s.m.w_size;
    next := Refill(s, flush, MIN_LOOKAHEAD);
    Ahead(s.m);
    if k >= MIN_MATCH { PutOffMoves(done, s.m.g.done, s.m.g.floor, a, p, start, k, w); }
  }

  method SlowGo(s: DeflateState) returns (stop: bool)
    requires SlowLoop(s) && s.m.lookahead >= 1 && s.m.strstart + MIN_LOOKAHEAD <= 2 * s.m.w_size
    modifies s`match_length, s`prev_length, s`prev_match, s`match_available, s`sent, s`avail_out, s`next_out, s.m,
        s.m.prev, s.m.head, s.bs.parts
    ensures old(s.sent) <= s.sent
    ensures Ready(s) && SlowState(s) && Open(s.sent)
        && (if stop then s.avail_out == 0 && s.bs.w.bi_valid < 8 else s.Drained())
    ensures s.m.g.done == old(s.m.g.done) && s.m.input == old(s.m.input) && 0 <= Left(s) < old(Left(s))
  {
    hide BlockState.PartsOk, DeflateState.Sound, Matcher.Valid, Matcher.Rolls, Looked, SlowState, Matcher.Inserted;
    s.SoundApart(Upto(s));
    Ahead(s.m);
    Look(s, Upto(s));
    stop := Decide(s);
  }

  /** Take the match put off, or the byte put off, or put the next byte off. */
  method Decide(s: DeflateState) returns (stop: bool)
    requires Upto(s) >= 0 && s.Sound(Upto(s)) && s.m.Inserted() && Looked(s) && |s.bs.ts| + 1 < s.bs.lit_bufsize
    requires s.m.level >= 1 && s.Drained() && Open(s.sent) && s.m.strstart + MIN_LOOKAHEAD <= 0x1_0000 && Hashing(s)
    modifies s`match_length, s`prev_length, s`match_available, s`sent, s`avail_out, s`next_out, s.m, s.m.prev,
        s.m.head, s.bs.parts
    ensures old(s.sent) <= s.sent
    ensures Ready(s) && SlowState(s) && Open(s.sent)
        && (if stop then s.avail_out == 0 && s.bs.w.bi_valid < 8 else s.Drained())
    ensures s.m.g == old(s.m.g).(ins := s.m.g.ins, next := s.m.g.next) && s.m.input == old(s.m.input)
        && s.m.strstart > old(s.m.strstart)
    ensures |s.m.g.done| == s.m.g.base + s.m.strstart + s.m.lookahead
  {
    hide BlockState.PartsOk, DeflateState.Sound, Matcher.Valid, Matcher.Rolls, Looked, SlowState, Matcher.Inserted;
    s.SoundApart(Upto(s));
    if s.prev_length >= MIN_MATCH && s.match_length <= s.prev_length {
      PreviousIs(s);
      var bflush := TakePrevious(s);
      Ahead(s.m);
      stop := EndTurn(s, bflush);
    } else if s.match_available {
      stop := TakeLiteral(s);
      Ahead(s.m);
    } else {
      PutByteOff(s);
      Ahead(s.m);
      stop := false;
    }
  }

  lemma {:induction false} PreviousIs(s: DeflateState)
    requires Looked(s) && s.prev_length >= MIN_MATCH
    ensures s.match_available
  {
  }

  lemma {:induction false} LastByte(m: Matcher, p: nat)
    requires m.Valid() && p < m.strstart
    ensures p < m.window.Length && m.g.base + p < |m.g.done| && m.window[p] == m.g.done[m.g.base + p]
  {
    hide HeadOk, PrevOk, Holds;
    m.WindowIs(p);
  }

  lemma {:induction false} Ahead(m: Matcher)
    requires m.Valid()
    ensures |m.g.done| == m.g.base + m.strstart + m.lookahead && m.strstart + m.lookahead <= 2 * m.w_size <= 65536
        && m.Indexed() && m.level <= 9
  {
    hide HeadOk, PrevOk;
  }

  lemma {:induction false} InsertedFacts(m: Matcher)
    requires m.Inserted()
    ensures m.lookahead >= 1 && m.level <= 9 && m.w_size <= 32768 && m.match_start < U32 && m.strstart < U32 - 1
    ensures |m.g.done| == m.g.base + m.strstart + m.lookahead
  {
    hide HeadOk, PrevOk, Matcher.Rolls;
  }

  lemma {:induction false} ThisByte(m: Matcher, p: nat)
    requires m.Inserted() && p < m.strstart + m.lookahead
    ensures m.level <= 9 && m.w_size <= 32768 && m.match_start < U32 && m.strstart < U32
        && |m.g.done| == m.g.base + m.strstart + m.lookahead
    ensures p < m.window.Length && m.g.base + p < |m.g.done| && m.window[p] == m.g.done[m.g.base + p]
  {
    hide HeadOk, PrevOk, Holds, Matcher.Rolls;
    HoldsLength(m.g.done, m.g.base, m.window[..]);
    m.WindowIs(p);
  }
}
