/** inflate (inflate.c) for raw streams with a 32K window and Z_NO_FLUSH: one call, any
    number of calls, and why the way the stream is cut into calls does not matter. */
module Inflate {
  import opened Bits
  import opened InfTrees
  import opened Window
  import opened BitReader
  import opened InfState
  import opened InfFast
  import R = Rfc1951

  const Z_OK: int := 0
  const Z_STREAM_END: int := 1
  const Z_DATA_ERROR: int := -3
  const Z_BUF_ERROR: int := -5

  /** One turn of the loop of inflate. */
  method Turn(s: InflateState, ghost c: R.Cfg, input: seq<byte>, r0: Regs, output: array<byte>, put: nat,
      ghost hist: seq<byte>)
    returns (leave: bool, r: Regs, put2: nat, ghost d: R.Cfg)
    requires s.At(c, input, r0, output, put, hist) && s.WindowOk(hist) && s.mode != DONE && s.mode != BAD
    modifies s`mode, s`last, s`length, s`offset, s`extra, s`ncode, s`nlen, s`ndist, s`have, s`lencode, s`lenbits,
        s`distcode, s`distbits,
             s`err, s`ll, s`dl, s`bl, s.lens, s.work, s.codes, output
    ensures s.At(d, input, r, output, put2, hist) && R.Reaches(c, d)
    ensures put2 >= put && output[..put] == old(output[..put]) && r.bits - 8 * r.ipos <= r0.bits - 8 * r0.ipos
    ensures leave ==> s.mode != CHECK && (put2 == output.Length || (r.ipos == |input| && R.Step(d) == R.None))
    ensures !leave ==> Less(input, r, r0) || put2 > put || s.Rank() < old(s.Rank())
  {
    hide R.Step, R.Reaches, InflateState.WindowOk, Unread, R.Valid, InflateState.TablesOk, InflateState.Is,
         InflateState.IsMode, InflateState.Few, HeldBits, InpOk;
    r, put2, leave := r0, put, false;
    if s.mode == COPY {
      leave, r, put2, d := s.DoCopy(c, input, r0, output, put, hist);
    } else if s.mode == LIT || s.mode == MATCH {
      if put == output.Length { return true, r0, put, R.Still(c); }
      put2, d := OutputTurn(s, c, input, r0, output, put, hist);
    } else if s.mode == LEN && |input| - r0.ipos >= 6 && output.Length - put >= 258 {
      r, put2, d := InflateFast(s, c, input, r0, output, put, hist);
    } else {
      leave, r, d := s.InputTurn(c, input, r0);
    }
  }

  /** A turn that makes output from what is already decoded. */
  method OutputTurn(s: InflateState, ghost c: R.Cfg, ghost input: seq<byte>, ghost r: Regs, output: array<byte>,
      put: nat, ghost hist: seq<byte>)
    returns (put2: nat, ghost d: R.Cfg)
    requires s.At(c, input, r, output, put, hist) && s.WindowOk(hist) && put < output.Length
        && (s.mode == LIT || s.mode == MATCH)
    modifies s`mode, s`length, s`err, output
    ensures s.At(d, input, r, output, put2, hist) && R.Reaches(c, d) && put2 >= put
        && output[..put] == old(output[..put])
    ensures put2 > put || s.Rank() < old(s.Rank())
  {
    hide R.Step, R.Reaches, InflateState.WindowOk, Unread, R.Valid, InflateState.TablesOk, InflateState.Is,
         InflateState.IsMode, HeldBits, InpOk, InflateState.Few;
    s.FewType(c, r);
    OutInp(s, c, input, r);
    if s.mode == LIT {
      put2, d := s.DoLit(c, output, put, hist);
    } else {
      put2, d := s.DoMatch(c, output, put, hist);
    }
    OutDone(s, d, input, r);
  }

  lemma {:induction false} OutInp(s: InflateState, c: R.Cfg, input: seq<byte>, r: Regs)
    requires s.Shape() && s.Is(c) && RegsOk(r, input) && InpOk(c, r, input) && (s.mode == LIT || s.mode == MATCH)
    ensures c.inp == Unread(r, input)
  {
    hide Unread, InflateState.TablesOk;
  }

  lemma {:induction false} OutDone(s: InflateState, d: R.Cfg, input: seq<byte>, r: Regs)
    requires s.Shape() && s.Is(d) && RegsOk(r, input) && R.Valid(d) && r.bits < 8
    requires (s.mode == BAD && d.mode.Bad? && d.inp == [])
        || ((s.mode == LEN || s.mode == MATCH) && d.inp == Unread(r, input))
    ensures InpOk(d, r, input) && s.Few(d, r)
  {
    hide Unread, InflateState.TablesOk;
  }

  // ---- a call ----

  /** Between calls: the state stands for c, whose unread bits are those held, and the
      window holds the last of all the bytes produced. */
  ghost predicate Idle(s: InflateState, c: R.Cfg)
    reads s, s.lens, s.codes, s.window
  {
    && s.Shape() && R.Valid(c) && s.Is(c) && s.hold < Pow2(s.bits) && s.bits <= 32
    && InpOk(c, Regs(s.hold, s.bits, 0), []) && s.Few(c, Regs(s.hold, s.bits, 0))
    && (s.WindowOk(c.out) || (s.mode == BAD && s.WindowOk([])))
  }

  /** Decoding input from c, with this much room, got to d and took some bytes: a run of
      the format machine, which ended because decoding is over, or because all input was
      taken and does not allow a step, or for lack of room. */
  ghost predicate Called(c: R.Cfg, input: seq<byte>, room: nat, d: R.Cfg, taken: nat) {
    && taken <= |input| && R.Reaches(R.Feed(c, BytesBits(input)), R.Feed(d, BytesBits(input[taken..])))
    && c.out <= d.out && |d.out| <= |c.out| + room && R.Valid(d)
    && (d.mode.Done? || d.mode.Bad? || (taken == |input| && R.Step(d) == R.None) || |d.out| == |c.out| + room)
  }

  /** What is left of d for the next call: the bits held. */
  ghost function Rest(d: R.Cfg, r: Regs): R.Cfg {
    match d.mode
    case Bad(e) => d
    case Stored => d.(inp := R.Aligned(HeldBits(r)))
    case _ => d.(inp := HeldBits(r))
  }

  lemma {:induction false} StartCall(s: InflateState, c: R.Cfg, input: seq<byte>, output: array<byte>)
    requires Idle(s, c) && output != s.window
    ensures s.At(R.Feed(c, BytesBits(input)), input, Regs(s.hold, s.bits, 0), output, 0, c.out)
  {
    hide InflateState.TablesOk, R.Step, ToBits, BytesBits, Pow2, InflateState.Is, R.Valid;
    var r := Regs(s.hold, s.bits, 0);
    var more := BytesBits(input);
    var none: seq<byte> := [];
    assert input[0..] == input && none[0..] == none && BytesBits(none) == [];
    assert Unread(r, none) == HeldBits(r);
    assert Unread(r, input) == HeldBits(r) + more;
    R.AlignedFeed(HeldBits(r), more);
    FeedIs(s, c, more);
    assert c.out == c.out + output[..0];
    if !c.mode.Bad? {
      assert R.Feed(c, more).(inp := HeldBits(r)) == c.(inp := HeldBits(r));
    }
  }

  lemma {:induction false} FeedIs(s: InflateState, c: R.Cfg, more: seq<bool>)
    requires s.Shape() && s.Is(c) && R.Valid(c)
    ensures s.Is(R.Feed(c, more)) && R.Valid(R.Feed(c, more)) && R.Feed(c, more).out == c.out
  {
    hide InflateState.TablesOk;
  }

  /** The end of a call: what is left of d, and the rest of the input, make up d. */
  lemma {:induction false} EndCall(s: InflateState, d: R.Cfg, input: seq<byte>, r: Regs, output: array<byte>,
      put: nat, hist: seq<byte>)
    requires s.At(d, input, r, output, put, hist) && s.hold == r.hold && s.bits == r.bits
    requires s.WindowOk(d.out) || (s.mode == BAD && s.WindowOk([]))
    ensures Idle(s, Rest(d, r)) && R.Feed(Rest(d, r), BytesBits(input[r.ipos..])) == d
    ensures r.ipos == |input| ==> Rest(d, r) == d
  {
    hide InflateState.TablesOk, R.Step, ToBits, BytesBits, Pow2, InflateState.Is, R.Valid;
    var q := Regs(s.hold, s.bits, 0);
    var none: seq<byte> := [];
    var more := BytesBits(input[r.ipos..]);
    assert none[0..] == none && BytesBits(none) == [];
    assert Unread(q, none) == HeldBits(r);
    R.AlignedFeed(HeldBits(r), more);
    RestIs(s, d, r);
    if r.ipos == |input| { assert input[r.ipos..] == none; }
    if !d.mode.Bad? {
      assert Rest(d, r).(inp := HeldBits(r)) == d.(inp := HeldBits(r));
    }
  }

  lemma {:induction false} RestIs(s: InflateState, d: R.Cfg, r: Regs)
    requires s.Shape() && s.Is(d) && R.Valid(d)
    ensures s.Is(Rest(d, r)) && R.Valid(Rest(d, r)) && Rest(d, r).out == d.out && Rest(d, r).mode == d.mode
  {
    hide InflateState.TablesOk;
  }

  /** Record the output of the call in the window. */
  method KeepWindow(s: InflateState, output: array<byte>, put: nat, ghost hist: seq<byte>)
    requires s.Shape() && s.WindowOk(hist) && put <= output.Length
    modifies s`wsize, s`whave, s`wnext, s.window
    ensures s.WindowOk(hist + output[..put]) || (s.mode == BAD && s.WindowOk([])) || output == s.window
  {
    hide RingOk;
    if s.wsize == 0 && (put == 0 || s.mode == BAD) {
      assert hist + output[..put] == output[..put];
      return;
    }
    if s.wsize == 0 {
      s.wsize, s.wnext, s.whave := WSIZE, 0, 0;
      EmptyRing(s.window[..]);
    }
    s.whave, s.wnext := UpdateWindow(s.window, s.wsize, s.whave, s.wnext, output[..put], hist);
  }

  lemma {:induction false} EmptyRing(window: seq<byte>)
    requires |window| == WSIZE
    ensures RingOk(window, WSIZE, 0, 0, [])
  {
  }

  /** inf_leave: keep the registers and the window for the next call. */
  method Leave(s: InflateState, ghost e: R.Cfg, ghost input: seq<byte>, r: Regs, output: array<byte>, put: nat,
      ghost hist: seq<byte>)
    returns (ghost d: R.Cfg)
    requires s.At(e, input, r, output, put, hist) && s.Shape() && s.WindowOk(hist) && put <= output.Length
        && output != s.window
    requires r.ipos <= |input|
    modifies s`hold, s`bits, s`wsize, s`whave, s`wnext, s.window
    ensures Idle(s, d) && d.mode == e.mode && d.out == e.out
    ensures R.Feed(d, BytesBits(input[r.ipos..])) == e && (r.ipos == |input| ==> d == e)
  {
    hide R.Step, R.Reaches, InflateState.WindowOk, Unread, R.Valid, InflateState.TablesOk, InflateState.Is,
         InflateState.IsMode,
         HeldBits, InpOk, InflateState.Few, InflateState.At, Idle, Rest;
    s.hold, s.bits := r.hold, r.bits;
    KeepWindow(s, output, put, hist);
    AtFields(s, e, input, r, output, put, hist);
    EndCall(s, e, input, r, output, put, hist);
    d := Rest(e, r);
    RestIs(s, e, r);
  }

  /** The loop: turn after turn, until decoding is over or has to wait. */
  method Loop(s: InflateState, input: seq<byte>, r0: Regs, output: array<byte>, ghost start: R.Cfg)
    returns (r: Regs, put: nat, ghost e: R.Cfg)
    requires s.At(start, input, r0, output, 0, start.out) && s.Shape() && s.WindowOk(start.out) && s.mode != BAD
    modifies s`mode, s`last, s`length, s`offset, s`extra, s`ncode, s`nlen, s`ndist, s`have, s`lencode, s`lenbits,
        s`distcode, s`distbits,
             s`err, s`ll, s`dl, s`bl, s.lens, s.work, s.codes, output
    ensures s.At(e, input, r, output, put, start.out) && R.Reaches(start, e) && s.WindowOk(start.out) && R.Valid(e)
    ensures s.mode == DONE || s.mode == BAD ||
            (s.mode != CHECK && (put == output.Length || (r.ipos == |input| && R.Step(e) == R.None)))
  {
    hide R.Step, R.Reaches, InflateState.WindowOk, Unread, R.Valid, InflateState.TablesOk, InflateState.Is,
         InflateState.IsMode,
         HeldBits, InpOk, InflateState.Few, InflateState.At;
    var leave := false;
    r, put, e := r0, 0, start;
    AtFields(s, e, input, r, output, put, start.out);
    R.ReachesRefl(start);
    while s.mode != DONE && s.mode != BAD && !leave
      invariant R.Valid(e) && s.Shape() && 0 <= put <= output.Length && RegsOk(r, input) && output != s.window
          && (leave ==> s.mode != CHECK)
      invariant s.At(e, input, r, output, put, start.out) && R.Reaches(start, e) && s.WindowOk(start.out)
      invariant leave ==> put == output.Length || (r.ipos == |input| && R.Step(e) == R.None)
      decreases !leave, 8 * |input| + r.bits - 8 * r.ipos + output.Length - put, s.Rank()
    {
      ghost var e0 := e;
      leave, r, put, e := Turn(s, e0, input, r, output, put, start.out);
      R.ReachesTrans(start, e0, e);
      AtFields(s, e, input, r, output, put, start.out);
    }
  }

  /** One call: decode input into output, as far as either goes. */
  method Inflate(s: InflateState, input: seq<byte>, output: array<byte>, ghost c: R.Cfg)
    returns (ret: int, taken: nat, given: nat, ghost d: R.Cfg)
    requires Idle(s, c) && output != s.window
    modifies s, s.lens, s.work, s.codes, s.window, output
    ensures Idle(s, d) && Called(c, input, output.Length, d, taken)
    ensures given <= output.Length && d.out == c.out + output[..given]
    ensures ret == Z_STREAM_END <==> d.mode.Done?
    ensures ret == Z_DATA_ERROR <==> d.mode.Bad?
    ensures old(s.mode) == BAD ==> ret == Z_DATA_ERROR && taken == 0 && given == 0 && d == c
    ensures ret == Z_BUF_ERROR <==> taken == 0 && given == 0 && !d.mode.Done? && !d.mode.Bad?
    ensures ret == Z_OK || ret == Z_STREAM_END || ret == Z_DATA_ERROR || ret == Z_BUF_ERROR
  {
    hide R.Step, R.Reaches, InflateState.WindowOk, Unread, R.Valid, InflateState.TablesOk, InflateState.Is,
         InflateState.IsMode,
         HeldBits, InpOk, InflateState.Few, InflateState.At;
    if s.mode == BAD {
      // no bit is looked at, and updatewindow is given nothing to copy
      BadAgain(s, c, input);
      return Z_DATA_ERROR, 0, 0, c;
    }
    StartCall(s, c, input, output);
    ghost var start := R.Feed(c, BytesBits(input));
    AtFields(s, start, input, Regs(s.hold, s.bits, 0), output, 0, c.out);
    var r, put;
    ghost var e;
    r, put, e := Loop(s, input, Regs(s.hold, s.bits, 0), output, start);
    AtFields(s, e, input, r, output, put, c.out);
    OverIs(s, e);
    ret := if s.mode == DONE then Z_STREAM_END else if s.mode == BAD then Z_DATA_ERROR else Z_OK;
    d := Leave(s, e, input, r, output, put, c.out);
    taken, given := r.ipos, put;
    if taken == 0 && given == 0 && ret == Z_OK { ret := Z_BUF_ERROR; }
  }

  /** After an error, a call does nothing and answers with the same error. */
  lemma {:induction false} BadAgain(s: InflateState, c: R.Cfg, input: seq<byte>)
    requires Idle(s, c) && s.mode == BAD
    ensures c.mode.Bad? && R.Valid(c) && R.Reaches(R.Feed(c, BytesBits(input)), R.Feed(c, BytesBits(input[0..])))
  {
    hide InflateState.TablesOk, BytesBits;
    R.ReachesRefl(c);
  }

  lemma {:induction false} AtFields(s: InflateState, e: R.Cfg, input: seq<byte>, r: Regs, output: array<byte>,
      put: nat, hist: seq<byte>)
    requires s.At(e, input, r, output, put, hist)
    ensures s.Shape() && s.Is(e) && R.Valid(e) && put <= output.Length && e.out == hist + output[..put]
        && RegsOk(r, input) && output != s.window
  {
  }

  lemma {:induction false} OverIs(s: InflateState, e: R.Cfg)
    requires s.Shape() && s.Is(e)
    ensures s.mode == DONE ==> e.mode.Done?
    ensures s.mode == BAD <==> e.mode.Bad?
    ensures e.mode.Done? ==> s.mode == DONE || s.mode == CHECK
  {
    hide InflateState.TablesOk;
  }

  /** inflateGetDictionary: the last bytes of all those produced, 32768 of them if there are so many,
      or none if no window was needed before an error. */
  method GetDictionary(s: InflateState, dictionary: array?<byte>, ghost c: R.Cfg) returns (dictLength: nat)
    requires Idle(s, c) && dictionary != s.window && (dictionary != null ==> s.whave <= dictionary.Length)
    modifies if dictionary == null then {} else {dictionary}
    ensures dictLength == (if |c.out| < WSIZE then |c.out| else WSIZE) || (s.mode == BAD && dictLength == 0)
    ensures dictionary != null ==>
              && dictLength <= |c.out| && dictLength <= dictionary.Length
              && dictionary[..dictLength] == c.out[|c.out| - dictLength..]
              && dictionary[dictLength..] == old(dictionary[dictLength..])
  {
    hide RingOk, InflateState.Is, R.Valid, InflateState.Few, InpOk, Pow2;
    ghost var hist := if s.WindowOk(c.out) then c.out else [];
    if s.wsize > 0 { RingLength(s.window[..], s.wsize, s.whave, s.wnext, hist); }
    if s.whave > 0 && dictionary != null {
      CopyRing(s.window, s.wsize, s.whave, s.wnext, dictionary, hist);
    }
    dictLength := s.whave;
  }

  // ---- any number of calls ----

  /** Where every stream starts. */
  ghost function Start(): R.Cfg {
    R.Cfg(R.Type, false, [], [], [], [])
  }

  method Init() returns (s: InflateState)
    ensures Idle(s, Start()) && fresh(s) && fresh(s.window) && s.mode == TYPE
  {
    hide TableOk, RingOk, ToBits;
    s := new InflateState();
    var none: seq<byte> := [];
    assert none[0..] == none && BytesBits(none) == [] && ToBits(0, 0) == [];
  }

  /** A call that was offered the stream up to a position, and some room, what it took, and
      where it got. */
  datatype Call = Call(upTo: nat, room: nat, taken: nat, cfg: R.Cfg)

  /** Calls, each offered more of the stream from where the one before it stopped. */
  ghost predicate Session(c: R.Cfg, stream: seq<byte>, p: nat, calls: seq<Call>, d: R.Cfg, q: nat)
    decreases |calls|
  {
    if calls == [] then d == c && q == p
    else
      var k := calls[0];
      && p <= k.upTo <= |stream| && Called(c, stream[p..k.upTo], k.room, k.cfg, k.taken)
      && Session(k.cfg, stream, p + k.taken, calls[1..], d, q)
  }

  /** Decoding is over, or the whole stream was taken and does not allow a step. */
  ghost predicate Finished(stream: seq<byte>, d: R.Cfg, q: nat)
    requires R.Valid(d)
  {
    d.mode.Done? || d.mode.Bad? || (q == |stream| && R.Step(d) == R.None)
  }

  /** However it is cut up, a session is a run over the whole stream. */
  lemma {:induction false} SessionRuns(c: R.Cfg, stream: seq<byte>, p: nat, calls: seq<Call>, d: R.Cfg, q: nat)
    requires p <= |stream| && R.Valid(c) && Session(c, stream, p, calls, d, q)
    ensures q <= |stream| && R.Valid(d)
    ensures R.Reaches(R.Feed(c, BytesBits(stream[p..])), R.Feed(d, BytesBits(stream[q..])))
    decreases |calls|
  {
    hide R.Step, R.Valid, R.Reaches, BytesBits;
    if calls == [] {
      FeedValid(c, BytesBits(stream[p..]));
      R.ReachesRefl(R.Feed(c, BytesBits(stream[p..])));
    } else {
      var k := calls[0];
      var n := p + k.taken;
      CallRuns(c, stream, p, k.upTo, k.room, k.cfg, k.taken);
      SessionRuns(k.cfg, stream, n, calls[1..], d, q);
      R.ReachesTrans(R.Feed(c, BytesBits(stream[p..])), R.Feed(k.cfg, BytesBits(stream[n..])),
          R.Feed(d, BytesBits(stream[q..])));
    }
  }

  lemma {:induction false} FeedValid(c: R.Cfg, more: seq<bool>)
    requires R.Valid(c)
    ensures R.Valid(R.Feed(c, more))
  {
  }

  lemma {:induction false} FeedFeed(c: R.Cfg, a: seq<bool>, b: seq<bool>)
    ensures R.Feed(R.Feed(c, a), b) == R.Feed(c, a + b)
  {
    assert c.inp + a + b == c.inp + (a + b);
  }

  lemma {:induction false} CallRuns(c: R.Cfg, stream: seq<byte>, p: nat, upTo: nat, room: nat, d: R.Cfg, taken: nat)
    requires R.Valid(c) && p <= upTo <= |stream| && Called(c, stream[p..upTo], room, d, taken)
    ensures p + taken <= |stream|
    ensures R.Reaches(R.Feed(c, BytesBits(stream[p..])), R.Feed(d, BytesBits(stream[p + taken..])))
  {
    hide R.Step, R.Valid, R.Reaches, BytesBits, R.Feed;
    var input, more := stream[p..upTo], stream[upTo..];
    var n := p + taken;
    assert stream[p..] == input + more && stream[n..] == input[taken..] + more;
    BytesBitsConcat(input, more);
    BytesBitsConcat(input[taken..], more);
    R.ReachesFeed(R.Feed(c, BytesBits(input)), R.Feed(d, BytesBits(input[taken..])), BytesBits(more));
    FeedFeed(c, BytesBits(input), BytesBits(more));
    FeedFeed(d, BytesBits(input[taken..]), BytesBits(more));
  }

  lemma {:induction false} FinishedStuck(stream: seq<byte>, d: R.Cfg, q: nat)
    requires q <= |stream| && R.Valid(d) && Finished(stream, d, q)
    ensures R.Stuck(R.Feed(d, BytesBits(stream[q..])))
  {
    var more := BytesBits(stream[q..]);
    FeedValid(d, more);
    if q == |stream| {
      assert stream[q..] == [];
      assert R.Feed(d, more) == d;
    } else {
      R.StepCases(R.Feed(d, more));
    }
  }

  /** The room of the calls that were offered all that was left of the stream. */
  function WholeRoom(stream: seq<byte>, calls: seq<Call>): nat {
    if calls == [] then 0
    else WholeRoom(stream, calls[1..]) + if calls[0].upTo == |stream| then calls[0].room else 0
  }

  /** Once decoding has come to an end, calls change nothing. */
  lemma {:induction false} FinishedStays(c: R.Cfg, stream: seq<byte>, p: nat, calls: seq<Call>, d: R.Cfg, q: nat)
    requires p <= |stream| && R.Valid(c) && Session(c, stream, p, calls, d, q) && Finished(stream, c, p)
    ensures R.Valid(d) && Finished(stream, d, q)
  {
    hide R.Step, R.Valid, R.Reaches, BytesBits, Session;
    SessionRuns(c, stream, p, calls, d, q);
    FinishedStuck(stream, c, p);
    var a, b := R.Feed(c, BytesBits(stream[p..])), R.Feed(d, BytesBits(stream[q..]));
    R.StuckStays(a, b);
    if p == |stream| {
      SessionForward(c, stream, p, calls, d, q);
      assert stream[p..] == [] && stream[q..] == [] && BytesBits([]) == [];
      assert R.Feed(c, []) == c && R.Feed(d, []) == d;
    }
  }

  lemma {:induction false} SessionForward(c: R.Cfg, stream: seq<byte>, p: nat, calls: seq<Call>, d: R.Cfg, q: nat)
    requires p <= |stream| && Session(c, stream, p, calls, d, q)
    ensures p <= q <= |stream|
    decreases |calls|
  {
    hide R.Step, R.Valid, R.Reaches, BytesBits;
    if calls != [] { SessionForward(calls[0].cfg, stream, p + calls[0].taken, calls[1..], d, q); }
  }

  /** A session comes to an end, or it fills all the room of the calls that were offered the
      whole stream. */
  lemma {:induction false} SessionProgress(c: R.Cfg, stream: seq<byte>, p: nat, calls: seq<Call>, d: R.Cfg, q: nat)
    requires p <= |stream| && R.Valid(c) && Session(c, stream, p, calls, d, q)
    ensures R.Valid(d) && (Finished(stream, d, q) || |d.out| >= |c.out| + WholeRoom(stream, calls))
    decreases |calls|
  {
    hide R.Step, R.Valid, R.Reaches, BytesBits;
    if calls != [] {
      var k := calls[0];
      var n := p + k.taken;
      SessionProgress(k.cfg, stream, n, calls[1..], d, q);
      if Finished(stream, k.cfg, n) { FinishedStays(k.cfg, stream, n, calls[1..], d, q); }
    }
  }

  /** inflate is resumable: two sessions over one stream, cut into calls in any way and with
      any room for output, that both decode it to the end give the same bytes, the same
      verdict and the same unread rest. */
  lemma {:induction false} CutsDoNotMatter(stream: seq<byte>, calls1: seq<Call>, d1: R.Cfg, q1: nat,
      calls2: seq<Call>, d2: R.Cfg, q2: nat)
    requires Session(Start(), stream, 0, calls1, d1, q1) && Session(Start(), stream, 0, calls2, d2, q2)
    requires R.Valid(d1) && R.Valid(d2) && Finished(stream, d1, q1) && Finished(stream, d2, q2)
    ensures d1.out == d2.out && d1.mode == d2.mode
    ensures q1 <= |stream| && q2 <= |stream|
    ensures !d1.mode.Bad? ==> d1.inp + BytesBits(stream[q1..]) == d2.inp + BytesBits(stream[q2..])
  {
    hide R.Step, R.Reaches, BytesBits;
    SessionRuns(Start(), stream, 0, calls1, d1, q1);
    SessionRuns(Start(), stream, 0, calls2, d2, q2);
    FinishedStuck(stream, d1, q1);
    FinishedStuck(stream, d2, q2);
    R.StuckUnique(R.Feed(Start(), BytesBits(stream[0..])), R.Feed(d1, BytesBits(stream[q1..])),
        R.Feed(d2, BytesBits(stream[q2..])));
  }

  /** Whatever a session has produced so far is the beginning of what it will produce. */
  lemma {:induction false} OutputIsPrefix(stream: seq<byte>, calls1: seq<Call>, d1: R.Cfg, q1: nat,
      calls2: seq<Call>, d2: R.Cfg, q2: nat)
    requires Session(Start(), stream, 0, calls1, d1, q1) && Session(Start(), stream, 0, calls2, d2, q2)
    requires R.Valid(d2) && Finished(stream, d2, q2)
    ensures d1.out <= d2.out
  {
    hide R.Step, BytesBits;
    SessionRuns(Start(), stream, 0, calls1, d1, q1);
    SessionRuns(Start(), stream, 0, calls2, d2, q2);
    FinishedStuck(stream, d2, q2);
    var a, b := R.Feed(d1, BytesBits(stream[q1..])), R.Feed(d2, BytesBits(stream[q2..]));
    R.StuckLast(R.Feed(Start(), BytesBits(stream[0..])), a, b);
    var n: nat :| R.Steps(a, n) == R.Some(b);
    R.OutGrows(a, n);
  }
}
