/** deflate and inflate together: whatever pieces the input comes in, whatever room there is for
    output on either side, and whatever flushes are asked for, inflate gives back the input. */
module RoundTrip {
  import opened Bits
  import opened Blocks
  import opened Streams
  import opened Covers
  import opened DeflateState
  import opened Deflate
  import Inflate
  import R = Rfc1951

  /** A call of deflate: input that has come up, room for output, and how to flush. */
  datatype Piece = Piece(more: seq<byte>, avail: nat, flush: Flush)

  /** All input that comes up in a run. */
  function Fed(run: seq<Piece>): seq<byte> {
    if run == [] then [] else Fed(run[..|run| - 1]) + run[|run| - 1].more
  }

  /** All room that a run gives for output. */
  function Room(run: seq<Piece>): nat {
    if run == [] then 0 else Room(run[..|run| - 1]) + run[|run| - 1].avail
  }

  /** From the kth piece on, and not before, the end is asked for, and no more input comes up. */
  ghost predicate Ends(run: seq<Piece>, k: nat) {
    && k < |run|
    && (forall i :: 0 <= i < k ==> run[i].flush != Z_FINISH)
    && (forall i :: k <= i < |run| ==> run[i].flush == Z_FINISH)
    && (forall i :: k < i < |run| ==> run[i].more == [])
  }

  /** More bytes than the blocks for so much input, and the marks of so many calls, can take. */
  function Enough(input: nat, calls: nat): nat {
    12 * input + 8 * calls + 9
  }

  /** The end is asked for from the kth piece on, with enough room. */
  ghost predicate Ample(run: seq<Piece>, k: nat) {
    Ends(run, k) && Room(run[k..]) >= Enough(|Fed(run)|, |run|)
  }

  /** Blocks whose bits are a byte stream, and what they stand for. */
  ghost predicate Encodes(stream: seq<byte>, blocks: seq<Block>, plain: seq<byte>) {
    AllOk(blocks) && AllFitIn(blocks) && BytesBits(stream) == StreamBits(blocks) && Plain(blocks) == plain
  }

  /** No end is asked for up to the kth piece. */
  ghost predicate Endless(run: seq<Piece>, k: nat) {
    k < |run| && forall i :: 0 <= i <= k ==> run[i].flush != Z_FINISH
  }

  /** The kth piece is a sync or full flush, with enough room for all that can be there. */
  ghost predicate Synced(run: seq<Piece>, k: nat) {
    && Endless(run, k) && (run[k].flush == Z_SYNC_FLUSH || run[k].flush == Z_FULL_FLUSH)
    && run[k].avail >= Enough(|Fed(run[..k + 1])|, k + 1)
  }

  /** From the kth piece on no more input comes up, and no end is asked for. */
  ghost predicate Settles(run: seq<Piece>, k: nat) {
    k < |run| && Endless(run, |run| - 1) && forall i :: k < i < |run| ==> run[i].more == []
  }

  /** ... with enough room. */
  ghost predicate Plenty(run: seq<Piece>, k: nat) {
    Settles(run, k) && Room(run[k..]) >= Enough(|Fed(run)|, |run|)
  }

  /** Every full flush with enough room, among the first n pieces, has left a mark where it was. */
  ghost predicate FullMarked(run: seq<Piece>, n: nat, marks: seq<Mark>)
    requires n <= |run|
  {
    forall j: nat :: j < n && Synced(run, j) && run[j].flush == Z_FULL_FLUSH ==> At(marks, |Fed(run[..j + 1])|)
  }

  ghost predicate At(marks: seq<Mark>, pos: nat) {
    exists i :: 0 <= i < |marks| && marks[i].pos == pos
  }

  /** All marks are places to restart from. */
  ghost predicate AllRestart(marks: seq<Mark>, blocks: seq<Block>, plain: seq<byte>) {
    forall i :: 0 <= i < |marks| ==> Restarts(marks[i], blocks, [], plain, |plain|, |plain|)
  }

  /** Call deflate for piece after piece until the stream ends; input that was not taken is
      offered again. If it ends, the output is a closed stream that stands for all input fed, and
      decoding can start at the mark of every full flush; and it does end when the end is asked for
      with enough room. Without an end, all input is taken if there is room, and after a sync or
      full flush with room the output stands for all of it. */
  method DeflateRun(level: nat, w_bits: nat, mem_level: nat, strategy: Strategy, run: seq<Piece>)
    returns (stream: seq<byte>, used: nat, ended: bool, left: seq<byte>, ghost blocks: seq<Block>,
             ghost marks: seq<Mark>)
    requires level <= 9 && 9 <= w_bits <= 15 && 1 <= mem_level <= 9
    ensures used <= |run| && (!ended ==> used == |run|)
    ensures ended ==>
              Closed(blocks) && Encodes(stream, blocks, Fed(run[..used])) && AllRestart(marks, blocks, Fed(run[..used]))
    ensures (exists k: nat :: Ample(run, k)) ==> ended
    ensures FullMarked(run, used, marks)
    ensures (exists k: nat :: Plenty(run, k)) ==> left == [] && !ended
    ensures run != [] && Synced(run, |run| - 1) ==>
              && !ended && left == [] && Open(blocks) && Encodes(stream, blocks, Fed(run))
              && AllRestart(marks, blocks, Fed(run))
    ensures Kinds(strategy, blocks)
  {
    hide Between, Delivered, Encodes, Fed, Room, Ends, Restarts, At, Settles, Synced, Endless;
    var s := Init(level, w_bits, mem_level, strategy);
    left := [];
    stream, used, ended, blocks, marks := [], 0, false, [], [];
    NothingFed(run);
    ghost var k := EndOf(run);
    while used < |run| && !ended
      invariant used <= |run| && Between(s) && s.bs.w.gone == stream && s.m.g.done + left == Fed(run[..used])
      invariant fresh(s) && fresh(s.m) && fresh(s.m.window) && fresh(s.m.prev) && fresh(s.m.head) && fresh(s.bs.parts)
      invariant ended ==>
                  && Closed(blocks) && Encodes(stream, blocks, Fed(run[..used]))
                  && AllRestart(marks, blocks, Fed(run[..used]))
      invariant s.credit <= 64 * used && (Ends(run, k) && used <= k ==> s.status != FINISH_STATE)
      invariant Ends(run, k) && used > k && !ended ==> |stream| >= Room(run[k..used])
      invariant Ends(run, k) && s.status == FINISH_STATE ==> left == []
      invariant blocks == s.sent && marks == s.marks && FullMarked(run, used, marks)
      invariant used > 0 && Endless(run, used - 1) ==> s.status != FINISH_STATE && !ended
      invariant used == 0 ==> s.status != FINISH_STATE && !ended
      invariant forall j: nat :: Settles(run, j) && j < used ==> left == [] || |stream| >= Room(run[j..used])
      invariant used > 0 && Synced(run, used - 1) ==>
                  && left == [] && Open(blocks) && Encodes(stream, blocks, Fed(run[..used]))
                  && AllRestart(marks, blocks, Fed(run[..used]))
      invariant Kinds(strategy, blocks)
      decreases |run| - used
    {
      FedMore(run, used);
      EndsAt(run, k, used);
      EndlessAt(run, used);
      ghost var rest, before, old_marks := left, stream, marks;
      var given;
      ended, left, given := OnePiece(s, left + run[used].more, run[used].avail, run[used].flush, Fed(run[..used + 1]));
      stream := stream + given;
      used := used + 1;
      blocks, marks := s.sent, s.marks;
      OutputBound(s);
      FullMore(run, used - 1, old_marks, marks);
      forall j: nat | Settles(run, j) && j < used
        ensures left == [] || |stream| >= Room(run[j..used])
      {
        SettlesAt(run, j, used - 1);
      }
    }
    OutputBound(s);
    FedPrefix(run, used);
    assert run[k..|run|] == run[k..] && run[..|run|] == run;
    forall j: nat | Ample(run, j)
      ensures ended
    {
      EndsOnce(run, j, k);
    }
    forall j: nat | Plenty(run, j)
      ensures left == [] && !ended
    {
      PlentyAt(run, j, used);
    }
    SyncedLast(run, used);
  }
  /** One call, with all input that is at hand. */
  method OnePiece(s: DeflateState, input: seq<byte>, avail: nat, flush: Flush, ghost fed: seq<byte>)
    returns (ended: bool, rest: seq<byte>, given: seq<byte>)
    requires Between(s) && s.m.g.done + input == fed
    modifies s, s.m, s.m.window, s.m.prev, s.m.head, s.bs.parts
    ensures Between(s) && s.m.g.done + rest == fed && s.bs.w.gone == old(s.bs.w.gone) + given && |given| <= avail
    ensures ended ==> Closed(s.sent) && Encodes(s.bs.w.gone, s.sent, fed) && AllRestart(s.marks, s.sent, fed)
    ensures s.credit <= old(s.credit) + 64
    ensures s.status == FINISH_STATE ==> old(s.status) == FINISH_STATE || (flush == Z_FINISH && rest == [])
    ensures flush == Z_FINISH && (old(s.status) != FINISH_STATE || input == []) ==> ended || |given| == avail
    ensures input == [] ==> rest == []
    ensures old(s.status) != FINISH_STATE && flush != Z_FINISH ==> !ended && (rest == [] || |given| == avail)
    ensures old(s.status) != FINISH_STATE && (flush == Z_SYNC_FLUSH || flush == Z_FULL_FLUSH) && |given| < avail ==>
              && rest == [] && Open(s.sent) && Encodes(s.bs.w.gone, s.sent, fed) && AllRestart(s.marks, s.sent, fed)
              && (flush == Z_FULL_FLUSH ==> At(s.marks, |fed|))
    ensures old(s.marks) <= s.marks
    ensures Kinds(s.strategy, s.sent)
  {
    hide Between, Delivered, Encodes, AllRestart, Mine;
    ghost var done := s.m.g.done;
    var ret, taken;
    ret, taken, given := Deflate.Deflate(s, input, avail, flush);
    rest := input[taken..];
    assert done + input == done + input[..taken] + rest;
    ended := ret == Z_STREAM_END;
    if ended {
      EndIs(s);
      assert s.m.g.done + [] == s.m.g.done;
    } else if old(s.status) != FINISH_STATE && (flush == Z_SYNC_FLUSH || flush == Z_FULL_FLUSH) && |given| < avail {
      SyncIs(s);
      assert rest == [] && s.m.g.done + [] == s.m.g.done;
      if flush == Z_FULL_FLUSH { assert s.marks[|s.marks| - 1].pos == |fed|; }
    }
  }

  /** After a sync flush, or a full one, the output stands for all input so far. */
  lemma {:induction false} SyncIs(s: DeflateState)
    requires Between(s) && s.status != FINISH_STATE && Delivered(s) && s.bs.w.bi_valid == 0
    ensures Encodes(s.bs.w.gone, s.sent, s.m.g.done) && AllRestart(s.marks, s.sent, s.m.g.done)
  {
    hide Mine, StreamBits, AllOk, AllFitIn, Plain;
    assert |BytesBits(s.bs.w.gone)| == 8 * |s.bs.w.gone|;
    AllMarks(s);
  }

  lemma {:induction false} AllMarks(s: DeflateState)
    requires Mine(s) && Delivered(s)
    ensures AllRestart(s.marks, s.sent, s.m.g.done)
  {
    hide Mine, Restarts, Plain, AllFitIn, AllOk, StreamBits, BytesBits, Lean, Kinds, Below;
    MineSound(s);
  }

  lemma {:induction false} EndlessAt(run: seq<Piece>, n: nat)
    requires n < |run|
    ensures Endless(run, n) <==> run[n].flush != Z_FINISH && (n > 0 ==> Endless(run, n - 1))
    ensures Synced(run, n) ==>
              Endless(run, n) && (run[n].flush == Z_SYNC_FLUSH || run[n].flush == Z_FULL_FLUSH)
              && run[n].avail >= Enough(|Fed(run[..n + 1])|, n + 1)
  {
  }

  lemma {:induction false} FullMore(run: seq<Piece>, n: nat, old_marks: seq<Mark>, marks: seq<Mark>)
    requires n < |run| && FullMarked(run, n, old_marks) && old_marks <= marks
    requires Synced(run, n) && run[n].flush == Z_FULL_FLUSH ==> At(marks, |Fed(run[..n + 1])|)
    ensures FullMarked(run, n + 1, marks)
  {
    hide Synced, Fed;
    forall j: nat | j < n + 1 && Synced(run, j) && run[j].flush == Z_FULL_FLUSH
      ensures At(marks, |Fed(run[..j + 1])|)
    {
      if j < n {
        var p := |Fed(run[..j + 1])|;
        assert At(old_marks, p);
        var i :| 0 <= i < |old_marks| && old_marks[i].pos == p;
        assert marks[i].pos == p;
      }
    }
  }

  /** Room from a piece on that no input follows. */
  lemma {:induction false} SettlesAt(run: seq<Piece>, j: nat, n: nat)
    requires Settles(run, j) && j <= n < |run|
    ensures n > j ==> run[n].more == []
    ensures run[n].flush != Z_FINISH && Endless(run, n)
    ensures Room(run[j..n + 1]) == Room(run[j..n]) + run[n].avail && (j == n ==> Room(run[j..n]) == 0)
  {
    EndsAt(run, j, n);
  }

  lemma {:induction false} SyncedLast(run: seq<Piece>, used: nat)
    requires used <= |run|
    ensures run != [] && Synced(run, |run| - 1) && used > 0 ==> Endless(run, used - 1)
  {
  }

  lemma {:induction false} PlentyAt(run: seq<Piece>, j: nat, used: nat)
    requires Plenty(run, j) && used <= |run|
    ensures Settles(run, j) && j < |run| && Endless(run, |run| - 1)
    ensures run[j..|run|] == run[j..] && Room(run[j..]) >= Enough(|Fed(run)|, |run|)
    ensures used > 0 ==> Endless(run, used - 1)
  {
  }

  /** Where the end is first asked for, if that is the end of the run. */
  ghost function EndOf(run: seq<Piece>): (k: nat)
    ensures k <= |run|
  {
    if exists k: nat :: Ends(run, k) then
      var k: nat :| Ends(run, k);
      k
    else |run|
  }

  lemma {:induction false} EndsOnce(run: seq<Piece>, j: nat, k: nat)
    requires Ends(run, j) && k == EndOf(run)
    ensures j == k && Ends(run, k)
  {
    var a, b := run[j].flush, run[k].flush;
  }

  lemma {:induction false} EndsAt(run: seq<Piece>, k: nat, i: nat)
    requires i < |run|
    ensures Ends(run, k) ==> (run[i].flush == Z_FINISH <==> i >= k) && (i > k ==> run[i].more == [])
    ensures k <= i ==> Room(run[k..i + 1]) == Room(run[k..i]) + run[i].avail
    ensures k == i ==> Room(run[k..i]) == 0
  {
    if k <= i { assert run[k..i + 1][..i - k] == run[k..i]; }
  }

  lemma {:induction false} FedPrefix(run: seq<Piece>, n: nat)
    requires n <= |run|
    ensures |Fed(run[..n])| <= |Fed(run)|
    decreases |run|
  {
    if n < |run| {
      var m := |run| - 1;
      FedPrefix(run[..m], n);
      assert run[..m][..n] == run[..n];
    } else {
      assert run[..n] == run;
    }
  }

  lemma {:induction false} NothingFed(run: seq<Piece>)
    ensures Fed(run[..0]) == []
  {
  }

  lemma {:induction false} FedMore(run: seq<Piece>, n: nat)
    requires n < |run|
    ensures Fed(run[..n + 1]) == Fed(run[..n]) + run[n].more
  {
    assert run[..n + 1][..n] == run[..n];
  }

  lemma {:induction false} EndIs(s: DeflateState)
    requires Between(s) && s.status == FINISH_STATE && Delivered(s)
    ensures Closed(s.sent) && Encodes(s.bs.w.gone, s.sent, s.m.g.done) && AllRestart(s.marks, s.sent, s.m.g.done)
  {
    hide Mine, StreamBits, AllOk, AllFitIn, Plain;
    assert |BytesBits(s.bs.w.gone)| == 8 * |s.bs.w.gone|;
    AllMarks(s);
  }

  /** A session that has come to an end, or that was offered all of a stream with more room than
      so many bytes take. */
  ghost predicate ToTheEnd(stream: seq<byte>, calls: seq<Inflate.Call>, d: R.Cfg, q: nat, bytes: nat) {
    && Inflate.Session(Inflate.Start(), stream, 0, calls, d, q) && R.Valid(d)
    && (Inflate.Finished(stream, d, q) || Inflate.WholeRoom(stream, calls) > bytes)
  }

  lemma {:induction false} StartValid()
    ensures R.Valid(Inflate.Start())
  {
  }

  /** With room for all that the machine produces, a session comes to an end. */
  lemma {:induction false} SessionEnds(stream: seq<byte>, calls: seq<Inflate.Call>, d: R.Cfg, q: nat, e: R.Cfg)
    requires ToTheEnd(stream, calls, d, q, |e.out|)
    requires R.Reaches(Start(BytesBits(stream)), e) && R.Stuck(e)
    ensures Inflate.Finished(stream, d, q)
  {
    hide R.Step, BytesBits, R.Valid, Inflate.Session, Inflate.Finished, Inflate.WholeRoom;
    StartValid();
    Inflate.SessionProgress(Inflate.Start(), stream, 0, calls, d, q);
    Inflate.SessionRuns(Inflate.Start(), stream, 0, calls, d, q);
    assert stream[0..] == stream && [] + BytesBits(stream) == BytesBits(stream);
    assert R.Feed(Inflate.Start(), BytesBits(stream[0..])) == Start(BytesBits(stream));
    var a := R.Feed(d, BytesBits(stream[q..]));
    R.StuckLast(Start(BytesBits(stream)), a, e);
    var n: nat :| R.Steps(a, n) == R.Some(e);
    R.OutGrows(a, n);
  }

  /** Decoding a closed stream, in any session with enough room, gives what it stands for. */
  lemma {:induction false} InflateUndoesDeflate(stream: seq<byte>, blocks: seq<Block>, plain: seq<byte>,
      calls: seq<Inflate.Call>, d: R.Cfg, q: nat)
    requires Encodes(stream, blocks, plain) && Closed(blocks) && AllReadable(blocks)
    requires ToTheEnd(stream, calls, d, q, |plain|)
    ensures d.mode.Done? && d.out == plain && q <= |stream| && d.inp + BytesBits(stream[q..]) == []
  {
    hide R.Step, R.Reaches, BytesBits, AllOk, AllReadable, AllFitIn, Plain, StreamBits, R.Valid, Inflate.Session,
         Inflate.Finished, Closed;
    var e := ReadClosed(blocks);
    DoneStuck(e);
    SessionEnds(stream, calls, d, q, e);
    Same(stream, calls, d, q, e);
  }

  lemma {:induction false} DoneStuck(e: R.Cfg)
    requires e.mode.Done?
    ensures R.Stuck(e)
  {
  }

  /** The session's end is where the machine gets stuck. */
  lemma {:induction false} Same(stream: seq<byte>, calls: seq<Inflate.Call>, d: R.Cfg, q: nat, e: R.Cfg)
    requires Inflate.Session(Inflate.Start(), stream, 0, calls, d, q) && R.Valid(d) && Inflate.Finished(stream, d, q)
    requires R.Reaches(Start(BytesBits(stream)), e) && R.Stuck(e) && !e.mode.Bad?
    ensures q <= |stream| && d.mode == e.mode && d.out == e.out && d.inp + BytesBits(stream[q..]) == e.inp
  {
    hide R.Step, R.Reaches, BytesBits;
    Inflate.SessionRuns(Inflate.Start(), stream, 0, calls, d, q);
    Inflate.FinishedStuck(stream, d, q);
    assert stream[0..] == stream && [] + BytesBits(stream) == BytesBits(stream);
    assert R.Feed(Inflate.Start(), BytesBits(stream[0..])) == Start(BytesBits(stream));
    R.StuckUnique(Start(BytesBits(stream)), R.Feed(d, BytesBits(stream[q..])), e);
  }

  /** Behind the mark of a full flush there is a stream of its own, which stands for the input behind
      the mark. */
  lemma {:induction false} RestartStream(stream: seq<byte>, blocks: seq<Block>, plain: seq<byte>, k: Mark)
    returns (n: nat)
    requires Encodes(stream, blocks, plain) && Restarts(k, blocks, [], plain, |plain|, |plain|)
    ensures n <= |stream| && BytesBits(stream[..n]) == StreamBits(blocks[..k.cut])
    ensures Encodes(stream[n..], blocks[k.cut..], plain[k.pos..])
    ensures Closed(blocks) ==> Closed(blocks[k.cut..])
  {
    hide StreamBits, AllOk, AllFitIn, Plain, AllFit, ApplyAll;
    var a, b := blocks[..k.cut], blocks[k.cut..];
    assert a + b == blocks;
    StreamSplit(a, b);
    n := |StreamBits(a)| / 8;
    assert stream[..n] + stream[n..] == stream;
    BytesBitsConcat(stream[..n], stream[n..]);
    SameHalves(BytesBits(stream[..n]), BytesBits(stream[n..]), StreamBits(a), StreamBits(b));
    assert plain[k.pos..][..|plain| - k.pos] == plain[k.pos..];
    if Closed(blocks) { ClosedBehind(blocks, k.cut); }
  }

  lemma {:induction false} SameHalves(a: seq<bool>, b: seq<bool>, c: seq<bool>, d: seq<bool>)
    requires a + b == c + d && |a| == |c|
    ensures a == c && b == d
  {
    assert (a + b)[..|a|] == a && (c + d)[..|c|] == c;
    assert (a + b)[|a|..] == b && (c + d)[|c|..] == d;
  }

  lemma {:induction false} ClosedBehind(blocks: seq<Block>, cut: nat)
    requires Closed(blocks) && cut <= |blocks| && Open(blocks[..cut])
    ensures Closed(blocks[cut..])
  {
    var n := |blocks| - 1;
    assert blocks[cut..][..n - cut] == blocks[cut..n];
    forall i | 0 <= i < n - cut
      ensures !blocks[cut..][i].last
    {
      assert blocks[..n][cut + i] == blocks[cut..][i];
    }
  }

  /** So a decoder that starts there gives exactly the input behind the full flush. */
  lemma {:induction false} RestartIsDecodable(stream: seq<byte>, blocks: seq<Block>, plain: seq<byte>, k: Mark,
      n: nat, calls: seq<Inflate.Call>, d: R.Cfg, q: nat)
    requires Encodes(stream, blocks, plain) && Closed(blocks) && AllReadable(blocks)
    requires Restarts(k, blocks, [], plain, |plain|, |plain|)
    requires n <= |stream| && BytesBits(stream[..n]) == StreamBits(blocks[..k.cut])
    requires ToTheEnd(stream[n..], calls, d, q, |plain| - k.pos)
    ensures d.mode.Done? && d.out == plain[k.pos..]
  {
    hide StreamBits, Encodes, ToTheEnd, Closed;
    var m := RestartStream(stream, blocks, plain, k);
    assert |BytesBits(stream[..n])| == 8 * n && |BytesBits(stream[..m])| == 8 * m;
    InflateUndoesDeflate(stream[n..], blocks[k.cut..], plain[k.pos..], calls, d, q);
  }

  /** After a synchronising or full flush, a decoder gets all input so far out of what has been
      handed out so far. */
  lemma {:induction false} FlushIsDecodable(stream: seq<byte>, blocks: seq<Block>, plain: seq<byte>,
      calls: seq<Inflate.Call>, d: R.Cfg, q: nat)
    requires Encodes(stream, blocks, plain) && Open(blocks) && AllReadable(blocks)
    requires ToTheEnd(stream, calls, d, q, |plain|)
    ensures d.mode.Type? && d.out == plain
  {
    hide R.Step, R.Reaches, BytesBits, AllOk, AllReadable, AllFitIn, Plain, StreamBits, R.Valid, Inflate.Session,
         Inflate.Finished, Open;
    assert StreamBits(blocks) + [] == StreamBits(blocks);
    assert |BytesBits(stream)| % 8 == 0;
    var e := ReadOpen(blocks, []);
    TypeStuck(e);
    SessionEnds(stream, calls, d, q, e);
    Same(stream, calls, d, q, e);
  }

  lemma {:induction false} TypeStuck(e: R.Cfg)
    requires e.mode.Type? && !e.last && e.inp == []
    ensures R.Stuck(e)
  {
    R.StepCases(e);
  }

  /** After a partial flush as well, although up to seven bits of the mark are still held. */
  lemma {:induction false} PartialFlushIsDecodable(stream: seq<byte>, blocks: seq<Block>, calls: seq<Inflate.Call>,
      d: R.Cfg, q: nat)
    requires AllOk(blocks) && AllFitIn(blocks) && Open(blocks) && AllReadable(blocks)
    requires blocks != [] && blocks[|blocks| - 1] == Block(Static([]), false)
    requires BytesBits(stream) <= StreamBits(blocks) && |StreamBits(blocks)| < 8 * |stream| + 8
    requires Inflate.Session(Inflate.Start(), stream, 0, calls, d, q) && R.Valid(d) && Inflate.Finished(stream, d, q)
    ensures Plain(blocks) <= d.out
  {
    hide R.Step, R.Reaches, BytesBits, R.Valid, Inflate.Session, Inflate.Finished, BlockBits, Readable;
    var n := |blocks| - 1;
    var front := blocks[..n];
    MarkSize(|StreamBits(front)|);
    var bits, before := BytesBits(stream), StreamBits(front);
    assert before <= StreamBits(blocks);
    var rest := bits[|before|..];
    assert bits == before + rest;
    var e := ReadOpen(front, rest);
    assert Plain(blocks) == Plain(front);
    Further(stream, calls, d, q, e);
  }

  lemma {:induction false} MarkSize(at: nat)
    ensures FormOk(Static([])) && |BlockBits(Static([]), false, at)| == 10
  {
    hide StaticL, StaticD;
    StaticEnd();
  }

  lemma {:induction false} StaticEnd()
    ensures |StaticL()| == 288 && StaticL()[256] == 7
  {
  }

  /** A session that comes to an end has all that the machine produces on the way. */
  lemma {:induction false} Further(stream: seq<byte>, calls: seq<Inflate.Call>, d: R.Cfg, q: nat, e: R.Cfg)
    requires Inflate.Session(Inflate.Start(), stream, 0, calls, d, q) && R.Valid(d) && Inflate.Finished(stream, d, q)
    requires R.Reaches(Start(BytesBits(stream)), e)
    ensures e.out <= d.out
  {
    hide R.Step, BytesBits;
    Inflate.SessionRuns(Inflate.Start(), stream, 0, calls, d, q);
    Inflate.FinishedStuck(stream, d, q);
    assert stream[0..] == stream && [] + BytesBits(stream) == BytesBits(stream);
    assert R.Feed(Inflate.Start(), BytesBits(stream[0..])) == Start(BytesBits(stream));
    var b := R.Feed(d, BytesBits(stream[q..]));
    R.StuckLast(Start(BytesBits(stream)), e, b);
    var n: nat :| R.Steps(e, n) == R.Some(b);
    R.OutGrows(e, n);
  }
}
