/** The match finder of deflate (deflate.c): a window of twice w_size bytes that slides over the
    input, hash chains that index it, and the search of a chain for the longest match. Window
    places are related to absolute positions in the input, which sliding does not change. */
module Lz77 {
  import opened Bits
  import opened Hash

  const MAX_MATCH: nat := 258
  const MIN_LOOKAHEAD: nat := MAX_MATCH + MIN_MATCH + 1
  const WIN_INIT: nat := MAX_MATCH
  const U32: nat := 0x1_0000_0000

  /** a - b in 32 bits */
  function Sub32(a: nat, b: nat): (r: nat)
    requires a < U32 && b < U32
    ensures r < U32
  {
    if a >= b then a - b else a + U32 - b
  }

  /** The columns of configuration_table. */
  function GoodLength(level: nat): nat
    requires level <= 9
  {
    [0, 4, 4, 4, 4, 8, 8, 8, 32, 32][level]
  }

  function MaxLazy(level: nat): nat
    requires level <= 9
  {
    [0, 4, 5, 6, 4, 16, 16, 32, 128, 258][level]
  }

  function NiceLength(level: nat): nat
    requires level <= 9
  {
    [0, 8, 16, 32, 16, 32, 128, 128, 258, 258][level]
  }

  function MaxChain(level: nat): nat
    requires level <= 9
  {
    [0, 4, 8, 32, 16, 32, 128, 256, 1024, 4096][level]
  }

  /** str & w_mask, for a place in the window */
  function Slot(p: nat, w: nat): nat {
    if p < w then p else p - w
  }

  // ---- the chains, in absolute positions ----

  /** Settings and past of a matcher: the input so far, the positions of the strings inserted,
      the position of window place 0, the end of the last string inserted plus one, and where
      the history begins that matches may reach back to. */
  datatype Past = Past(bits: nat, w: nat, done: seq<byte>, ins: set<nat>, base: nat, next: nat, floor: nat)

  function KeyAt(g: Past, a: nat): nat
    requires a + 3 <= |g.done|
  {
    Key(g.bits, g.done[a], g.done[a + 1], g.done[a + 2])
  }

  /** A string with key h was inserted at a. */
  ghost predicate Entry(g: Past, a: nat, h: nat) {
    a in g.ins && a + 3 <= |g.done| && KeyAt(g, a) == h
  }

  /** Window place q, if there is one, holds an inserted string with key h. */
  ghost predicate Points(g: Past, q: nat, h: nat) {
    q == 0 || Entry(g, g.base + q, h)
  }

  /** The link of the string at a leads further back, to a string with the same key. */
  ghost predicate LinkOk(g: Past, prev: seq<nat>, a: nat)
    requires a >= g.base && a + 3 <= |g.done|
  {
    var s := Slot(a - g.base, g.w);
    s < |prev| && Points(g, prev[s], KeyAt(g, a)) && (prev[s] != 0 ==> g.base + prev[s] < a)
  }

  /** The link of the string at a is still there. */
  ghost predicate Live(g: Past, a: nat) {
    a in g.ins && a >= g.base && a + g.w >= g.next
  }

  ghost predicate HeadOk(g: Past, head: seq<nat>) {
    forall h: nat :: h < |head| ==> Points(g, head[h], h)
  }

  ghost predicate PrevOk(g: Past, prev: seq<nat>) {
    && (forall a :: a in g.ins ==> a + 3 <= |g.done| && a < g.next)
    && g.next <= g.base + 2 * g.w
    && forall a: nat :: Live(g, a) ==> LinkOk(g, prev, a)
  }

  /** The window holds the input from place 0 on. */
  ghost predicate Holds(done: seq<byte>, base: nat, window: seq<byte>) {
    base <= |done| <= base + |window| && window[..|done| - base] == done[base..]
  }

  // ---- what the operations do to the chains ----

  /** INSERT_STRING at a. */
  lemma {:induction false} InsertKeeps(g: Past, head: seq<nat>, prev: seq<nat>, a: nat)
    requires HeadOk(g, head) && PrevOk(g, prev) && |prev| == g.w && g.base <= a && g.next <= a && a + 3 <= |g.done|
    requires a < g.base + 2 * g.w && KeyAt(g, a) < |head|
    ensures var h := KeyAt(g, a);
            var g2 := g.(ins := g.ins + {a}, next := a + 1);
            && HeadOk(g2, head[h := a - g.base])
            && PrevOk(g2, prev[Slot(a - g.base, g.w) := head[h]])
  {
    hide Key;
    var h, s := KeyAt(g, a), Slot(a - g.base, g.w);
    var g2, prev2 := g.(ins := g.ins + {a}, next := a + 1), prev[s := head[h]];
    assert Points(g, head[h], h);
    forall b: nat | Live(g2, b) ensures LinkOk(g2, prev2, b) {
      if b != a { assert Live(g, b); }
    }
    var head2 := head[h := a - g.base];
    forall k: nat | k < |head2| ensures Points(g2, head2[k], k) {
      assert Points(g, head[k], k);
    }
  }

  /** More input changes nothing. */
  lemma {:induction false} ReadKeeps(g: Past, head: seq<nat>, prev: seq<nat>, more: seq<byte>)
    requires HeadOk(g, head) && PrevOk(g, prev)
    ensures var g2 := g.(done := g.done + more); HeadOk(g2, head) && PrevOk(g2, prev)
  {
    hide Key;
    var g2 := g.(done := g.done + more);
    forall a: nat | Live(g2, a) ensures LinkOk(g2, prev, a) { assert Live(g, a); }
    forall k: nat | k < |head| ensures Points(g2, head[k], k) { assert Points(g, head[k], k); }
  }

  /** One entry of slide_hash. */
  function Slid(m: nat, w: nat): nat {
    if m >= w then m - w else 0
  }

  ghost predicate AllSlid(a: seq<nat>, b: seq<nat>, w: nat) {
    |a| == |b| && forall k :: 0 <= k < |a| ==> b[k] == Slid(a[k], w)
  }

  /** slide_hash: what the entries say about absolute positions stays true. */
  lemma {:induction false} SlideKeeps(g: Past, head: seq<nat>, prev: seq<nat>, head2: seq<nat>, prev2: seq<nat>)
    requires HeadOk(g, head) && PrevOk(g, prev) && |prev| == g.w && AllSlid(head, head2, g.w)
        && AllSlid(prev, prev2, g.w)
    ensures var g2 := g.(base := g.base + g.w); HeadOk(g2, head2) && PrevOk(g2, prev2)
  {
    hide Key;
    var g2 := g.(base := g.base + g.w);
    forall a: nat | Live(g2, a) ensures LinkOk(g2, prev2, a) {
      assert Live(g, a);
      assert LinkOk(g, prev, a);
      assert Slot(a - g.base, g.w) == a - g.base - g.w == Slot(a - g2.base, g.w);
    }
    forall k: nat | k < |head2| ensures Points(g2, head2[k], k) { assert Points(g, head[k], k); }
  }

  // ---- the search ----

  /** How many bytes agree from places p and q on, up to n. */
  function Common(window: seq<byte>, p: nat, q: nat, n: nat): (k: nat)
    requires p + n <= |window| && q + n <= |window|
    ensures k <= n
    decreases n
  {
    if n == 0 || window[p] != window[q] then 0 else 1 + Common(window, p + 1, q + 1, n - 1)
  }

  ghost predicate SameAt(window: seq<byte>, p: nat, q: nat, i: nat) {
    p + i < |window| && q + i < |window| && window[p + i] == window[q + i]
  }

  ghost predicate Agree(window: seq<byte>, p: nat, q: nat, k: nat) {
    forall i: nat :: i < k ==> SameAt(window, p, q, i)
  }

  lemma {:induction false} CommonAgree(window: seq<byte>, p: nat, q: nat, n: nat)
    requires p + n <= |window| && q + n <= |window|
    ensures var k := Common(window, p, q, n); Agree(window, p, q, k) && (k < n ==> !SameAt(window, p, q, k))
    decreases n
  {
    if n > 0 && window[p] == window[q] {
      CommonAgree(window, p + 1, q + 1, n - 1);
      var k := Common(window, p + 1, q + 1, n - 1);
      forall i: nat | i < k + 1 ensures SameAt(window, p, q, i) {
        if i > 0 { assert SameAt(window, p + 1, q + 1, i - 1); }
      }
    }
  }

  lemma {:induction false} AgreeMore(window: seq<byte>, p: nat, q: nat, k: nat)
    requires Agree(window, p, q, k) && SameAt(window, p, q, k)
    ensures Agree(window, p, q, k + 1)
  {
  }

  lemma {:induction false} CommonIs(window: seq<byte>, p: nat, q: nat, n: nat, k: nat)
    requires p + n <= |window| && q + n <= |window| && k <= n
    requires Agree(window, p, q, k) && (k < n ==> !SameAt(window, p, q, k))
    ensures Common(window, p, q, n) == k
  {
    hide SameAt;
    CommonAgree(window, p, q, n);
  }

  /** A string that differs at a place has no more than that in common. */
  lemma {:induction false} CommonBelow(window: seq<byte>, p: nat, q: nat, n: nat, k: nat)
    requires p + n <= |window| && q + n <= |window| && k < n && !SameAt(window, p, q, k)
    ensures Common(window, p, q, n) <= k
  {
    hide SameAt;
    CommonAgree(window, p, q, n);
  }

  /** The candidates of a chain from cur on: at most n, and all beyond limit but the first. */
  function Walk(prev: seq<nat>, w: nat, cur: nat, limit: nat, n: nat): (c: seq<nat>)
    requires |prev| == w
    ensures |c| <= n
    decreases n
  {
    if n == 0 || Slot(cur, w) >= w then []
    else
      var q := prev[Slot(cur, w)];
      [cur] + if q > limit then Walk(prev, w, q, limit, n - 1) else []
  }

  /** A match of k bytes, d places back but not beyond floor, for the string at absolute position a. */
  ghost predicate Real(done: seq<byte>, floor: nat, a: nat, d: nat, k: nat) {
    1 <= d && floor + d <= a && a + k <= |done| && Agree(done, a - d, a, k)
  }

  class Matcher {
    const level: nat
    const hash_bits: nat
    const w_size: nat
    const window: array<byte>
    const prev: array<nat>
    const head: array<nat>
    var strstart: nat
    var lookahead: nat
    var insert: nat
    var ins_h: nat
    var match_start: nat      // unsigned: a garbage value may wrap around
    var block_start: int
    var high_water: nat
    var input: seq<byte>      // next_in, avail_in
    ghost var g: Past

    ghost predicate Shape()
      reads `g
    {
      && level <= 9 && 8 <= hash_bits <= 16 && 512 <= w_size <= 32768
      && window.Length == 2 * w_size && prev.Length == w_size && head.Length == Pow2(hash_bits)
      && prev != head && window as object != prev as object && window as object != head as object
      && g.bits == hash_bits && g.w == w_size && g.floor <= g.base
    }

    /** The window holds the input and the chains index it. */
    ghost predicate Indexed()
      reads `g, window, prev, head
    {
      Shape() && Holds(g.done, g.base, window[..]) && HeadOk(g, head[..]) && PrevOk(g, prev[..])
    }

    /** ... and strstart and lookahead say how far that is. */
    ghost predicate Placed()
      reads `g, `strstart, `lookahead, `insert, `match_start, `high_water, window, prev, head
    {
      && Indexed() && g.base + strstart + lookahead == |g.done| && match_start < U32 && high_water <= 2 * w_size
      && g.next + insert <= g.base + strstart && insert <= strstart && (g.next == 0 || g.next + 2 <= |g.done|)
    }

    /** ... and strings still to be inserted wait for more input. */
    ghost predicate Valid()
      reads `g, `strstart, `lookahead, `insert, `match_start, `high_water, window, prev, head
    {
      Placed() && (insert > 0 ==> lookahead + insert < MIN_MATCH)
    }

    /** One more byte makes ins_h the key of the string at place p, if that string is there. */
    ghost predicate Rolls(p: nat)
      reads `g, `ins_h
    {
      g.base + p + 3 <= |g.done| ==> Update(g.bits, ins_h, g.done[g.base + p + 2]) == KeyAt(g, g.base + p)
    }

    /** deflateInit and lm_init */
    constructor (lev: nat, bits: nat, w: nat)
      requires lev <= 9 && 8 <= bits <= 16 && 512 <= w <= 32768
      ensures Valid() && Rolls(0) && strstart == lookahead == insert == 0 && block_start == 0 && input == []
      ensures g == Past(bits, w, [], {}, 0, 0, 0) && level == lev && fresh(window) && fresh(prev) && fresh(head)
    {
      hide Key, Update;
      level, hash_bits, w_size := lev, bits, w;
      window := new byte[2 * w];
      prev := new nat[w];
      head := new nat[Pow2(bits)];
      strstart, lookahead, insert, ins_h, match_start, block_start, high_water, input := 0, 0, 0, 0, 0, 0, 0, [];
      g := Past(bits, w, [], {}, 0, 0, 0);
      new;
      ClearHash();
      ghost var none: seq<byte> := [];
      assert window[..0] == none == none[0..];
    }

    /** CLEAR_HASH */
    method ClearHash()
      requires head.Length > 0
      modifies head
      ensures forall k :: 0 <= k < head.Length ==> head[k] == 0
    {
      forall k | 0 <= k < head.Length { head[k] := 0; }
    }

    /** What a full flush does to the matcher: forget all strings and, when all input has been
        dealt with, start again at the beginning of the window. */
    method Forget()
      requires Placed()
      modifies `strstart, `block_start, `insert, `g, head
      ensures Placed() && insert <= old(insert) && (old(Rolls(strstart)) ==> Rolls(strstart))
      ensures lookahead == 0 ==> strstart == 0 && block_start == 0 && g.base == g.floor == |g.done|
      ensures lookahead > 0 ==>
                strstart == old(strstart) && block_start == old(block_start) && g.base == old(g).base
                && g.floor == old(g).floor
      ensures g == old(g).(ins := {}, base := g.base, floor := g.floor)
    {
      hide Key, Update, Holds;
      ghost var win: seq<byte> := window[..];
      ClearHash();
      assert window[..] == win;
      g := g.(ins := {});
      if lookahead == 0 {
        HoldsNothing(g.done, window[..]);
        strstart, block_start, insert := 0, 0, 0;
        g := g.(base := |g.done|, floor := |g.done|);
      }
    }

    lemma {:induction false} WindowIs(p: nat)
      requires Holds(g.done, g.base, window[..]) && g.base + p < |g.done|
      ensures p < window.Length && window[p] == g.done[g.base + p]
    {
      assert window[..|g.done| - g.base][p] == g.done[g.base..][p];
    }

    /** INSERT_STRING */
    method InsertString(str: nat) returns (match_head: nat)
      requires Indexed() && g.next <= g.base + str && g.base + str + 3 <= |g.done| && Rolls(str)
      modifies `ins_h, `g, prev, head
      ensures g == old(g).(ins := old(g).ins + {old(g).base + str}, next := old(g).base + str + 1)
      ensures Indexed() && Rolls(str + 1) && ins_h == KeyAt(g, g.base + str)
      ensures Points(g, match_head, ins_h) && (match_head != 0 ==> match_head < str)
    {
      hide Holds, HeadOk, PrevOk, Key, Update;
      WindowIs(str + 2);
      KeyBound(hash_bits, g.done[g.base + str], g.done[g.base + str + 1], g.done[g.base + str + 2]);
      InsertAt(g, head[..], prev[..], g.base + str);
      ghost var hs, ps := head[..], prev[..];
      ins_h := Update(hash_bits, ins_h, window[str + 2]);
      match_head := head[ins_h];
      prev[Slot(str, w_size)] := match_head;
      head[ins_h] := str;
      g := g.(ins := g.ins + {g.base + str}, next := g.base + str + 1);
      assert head[..] == hs[ins_h := str] && prev[..] == ps[Slot(str, w_size) := match_head];
      if g.base + str + 4 <= |g.done| {
        KeyRolls(hash_bits, g.done[g.base + str], g.done[g.base + str + 1], g.done[g.base + str + 2],
            g.done[g.base + str + 3]);
      }
    }

    /** Copy the upper half of the window down. */
    method SlideWindow()
      requires Placed() && strstart >= w_size
      modifies window
      ensures Holds(g.done, g.base + w_size, window[..]) && head[..] == old(head[..]) && prev[..] == old(prev[..])
    {
      hide HeadOk, PrevOk;
      var n := strstart + lookahead - w_size;
      ghost var win: seq<byte> := window[..];
      HoldsLength(g.done, g.base, win);
      forall i | 0 <= i < n { window[i] := window[w_size + i]; }
      SlideHolds(g.done, g.base, w_size, win, window[..]);
    }

    /** slide_hash */
    method SlideHash()
      requires Shape() && HeadOk(g, head[..]) && PrevOk(g, prev[..])
      modifies head, prev
      ensures var g2 := g.(base := g.base + w_size); HeadOk(g2, head[..]) && PrevOk(g2, prev[..])
      ensures window[..] == old(window[..])
    {
      hide HeadOk, PrevOk;
      ghost var hs, ps := head[..], prev[..];
      SlideTable(head, w_size);
      SlideTable(prev, w_size);
      SlideKeeps(g, hs, ps, head[..], prev[..]);
    }

    /** Move the upper half of the window, and the chains, down. */
    method Slide()
      requires Placed() && strstart + MIN_LOOKAHEAD >= 2 * w_size
      modifies `strstart, `insert, `match_start, `block_start, `g, window, prev, head
      ensures Placed() && insert <= old(insert) && strstart == old(strstart) - w_size
          && g == old(g).(base := old(g).base + w_size)
      ensures match_start == Sub32(old(match_start), w_size) && block_start == old(block_start) - w_size
      ensures old(Rolls(strstart)) ==> Rolls(strstart)
    {
      hide Holds, HeadOk, PrevOk, Key, Update;
      SlideWindow();
      match_start := Sub32(match_start, w_size);
      strstart := strstart - w_size;
      block_start := block_start - w_size;
      if insert > strstart { insert := strstart; }
      SlideHash();
      g := g.(base := g.base + w_size);
    }

    /** Read up to more bytes of input behind the lookahead. */
    method ReadBuf(more: nat)
      requires Placed() && strstart + lookahead + more == 2 * w_size
      modifies `lookahead, `input, `g, window
      ensures Placed() && |g.done| <= |old(g).done| + more && g == old(g).(done := g.done)
          && g.done + input == old(g.done + input)
      ensures old(g).done <= g.done && (more > 0 && old(input) != [] ==> |g.done| > |old(g).done|)
    {
      hide HeadOk, PrevOk, Key, Update, Holds;
      var len := |input|;
      if len > more { len := more; }
      var at := strstart + lookahead;
      ghost var win: seq<byte> := window[..];
      HoldsLength(g.done, g.base, win);
      ghost var hs, ps := head[..], prev[..];
      forall i | 0 <= i < len { window[at + i] := input[i]; }
      assert head[..] == hs && prev[..] == ps;
      ReadHolds(g.done, g.base, win, window[..], input[..len]);
      ReadKeeps(g, head[..], prev[..], input[..len]);
      assert g.done + input == (g.done + input[..len]) + input[len..];
      g := g.(done := g.done + input[..len]);
      input := input[len..];
      lookahead := lookahead + len;
    }

    /** Hash the first two bytes at str. */
    method Rehash(str: nat)
      requires Indexed() && str + 1 < window.Length
      modifies `ins_h
      ensures Rolls(str)
    {
      hide Holds, HeadOk, PrevOk, Update;
      ins_h := window[str];
      ins_h := Update(hash_bits, ins_h, window[str + 1]);
      if g.base + str + 3 <= |g.done| {
        WindowIs(str);
        WindowIs(str + 1);
      }
    }

    /** Insert strings that had to wait for input. */
    method InsertPending()
      requires Placed()
      modifies `insert, `ins_h, `g, prev, head
      ensures Valid() && Rolls(strstart) && g == old(g).(ins := g.ins, next := g.next)
    {
      hide Holds, HeadOk, PrevOk, Update, Key;
      if lookahead + insert >= MIN_MATCH {
        var str: nat := strstart - insert;
        WindowIs(str + 1);
        Rehash(str);
        while insert > 0
          invariant Placed() && g == old(g).(ins := g.ins, next := g.next) && Rolls(str) && str + insert == strstart
          invariant insert > 0 ==> lookahead + insert >= MIN_MATCH
        {
          var h := InsertString(str);
          str := str + 1;
          insert := insert - 1;
          if lookahead + insert < MIN_MATCH { break; }
        }
      }
    }

    /** Zero the bytes that a search may look at beyond the input, where nothing was ever written. */
    method ZeroAhead()
      requires Placed()
      modifies `high_water, window
      ensures Placed() && (high_water >= strstart + lookahead + WIN_INIT || high_water == 2 * w_size)
      ensures Rolls(strstart) == old(Rolls(strstart)) && high_water >= old(high_water)
    {
      hide HeadOk, PrevOk, Key, Update;
      var curr := strstart + lookahead;
      ghost var win: seq<byte> := window[..];
      HoldsLength(g.done, g.base, win);
      ghost var hs, ps := head[..], prev[..];
      if high_water < 2 * w_size {
        var init;
        if high_water < curr {
          init := 2 * w_size - curr;
          if init > WIN_INIT { init := WIN_INIT; }
          forall i | 0 <= i < init { window[curr + i] := 0; }
          high_water := curr + init;
        } else if high_water < curr + WIN_INIT {
          init := curr + WIN_INIT - high_water;
          if init > 2 * w_size - high_water { init := 2 * w_size - high_water; }
          forall i | 0 <= i < init { window[high_water + i] := 0; }
          high_water := high_water + init;
        }
      }
      assert head[..] == hs && prev[..] == ps;
      SameHolds(g.done, g.base, win, window[..]);
    }

    /** The window after sliding or not, with the same view of the input. */
    ghost predicate Moved(g0: Past, s0: nat, m0: nat, b0: int)
      reads this
      requires m0 < U32
    {
      && g.base + strstart == g0.base + s0 && g.base + block_start == g0.base + b0 && g.floor == g0.floor
      && Shape()
      && ((g.base == g0.base && match_start == m0)
          || (g.base == g0.base + w_size && match_start == Sub32(m0, w_size) && strstart + MIN_LOOKAHEAD >= w_size))
    }

    /** Make room by sliding, if there is little left, and read. */
    method FillOnce()
      requires Valid() && lookahead < MIN_LOOKAHEAD
      modifies `strstart, `lookahead, `insert, `ins_h, `match_start, `block_start, `input, `g, window, prev, head
      ensures Valid() && g.done + input == old(g.done + input) && old(g).done <= g.done
      ensures input == old(input) == [] || |input| < |old(input)|
      ensures strstart + MIN_LOOKAHEAD < 2 * w_size && Moved(old(g), old(strstart), old(match_start), old(block_start))
      ensures old(strstart) + MIN_LOOKAHEAD < 2 * w_size ==> g.base == old(g).base
      ensures old(Rolls(strstart)) ==> Rolls(strstart)
    {
      hide Holds, HeadOk, PrevOk, Key, Update, Rolls;
      HoldsLength(g.done, g.base, window[..]);
      var more := 2 * w_size - lookahead - strstart;
      if strstart + MIN_LOOKAHEAD >= 2 * w_size {
        Slide();
        more := more + w_size;
      }
      if input == [] { return; }
      ReadBuf(more);
      InsertPending();
    }

    /** fill_window */
    method FillWindow()
      requires Valid() && lookahead < MIN_LOOKAHEAD
      modifies `strstart, `lookahead, `insert, `ins_h, `match_start, `block_start, `high_water, `input, `g, window,
          prev, head
      ensures Valid() && g.done + input == old(g.done + input) && old(g).done <= g.done
      ensures lookahead >= MIN_LOOKAHEAD || input == []
      ensures strstart + MIN_LOOKAHEAD < 2 * w_size && Moved(old(g), old(strstart), old(match_start), old(block_start))
      ensures old(Rolls(strstart)) ==> Rolls(strstart)
      ensures high_water >= strstart + lookahead + WIN_INIT || high_water == 2 * w_size
    {
      hide Holds, HeadOk, PrevOk, Key, Update, Rolls;
      FillOnce();
      while lookahead < MIN_LOOKAHEAD && input != []
        invariant Valid() && g.done + input == old(g.done + input) && old(g).done <= g.done
        invariant strstart + MIN_LOOKAHEAD < 2 * w_size
            && Moved(old(g), old(strstart), old(match_start), old(block_start))
        invariant old(Rolls(strstart)) ==> Rolls(strstart)
        decreases |input|
      {
        FillOnce();
      }
      ZeroAhead();
    }

    /** The string in the window at p, for one that was inserted. */
    lemma {:induction false} SameThird(p: nat, q: nat)
      requires Indexed() && g.base + p + 3 <= |g.done| && g.base + q + 3 <= |g.done|
          && KeyAt(g, g.base + p) == KeyAt(g, g.base + q)
      requires p + 1 < window.Length && q + 1 < window.Length && window[p] == window[q]
          && window[p + 1] == window[q + 1]
      ensures Agree(window[..], p, q, 3)
    {
      hide Holds, HeadOk, PrevOk, Key;
      WindowIs(p);
      WindowIs(p + 1);
      WindowIs(p + 2);
      WindowIs(q);
      WindowIs(q + 1);
      WindowIs(q + 2);
      ThirdByte(hash_bits, window[p], window[p + 1], window[p + 2], window[q + 2]);
    }

    /** How far the strings at two places agree, given that they do so for three bytes. The
        end of the longest match is looked for after every eighth comparison only. */
    method Extent(scan0: nat, match0: nat) returns (len: nat)
      requires match0 < scan0 && scan0 + MAX_MATCH < window.Length && Agree(window[..], match0, scan0, 3)
      ensures len == Common(window[..], match0, scan0, MAX_MATCH)
    {
      var scan, mat, strend := scan0 + 2, match0 + 2, scan0 + MAX_MATCH;
      var same := true;
      while same && scan < strend
        invariant scan0 + 2 <= scan <= strend && scan - scan0 == mat - match0 && (same ==> (scan - scan0) % 8 == 2)
        invariant Agree(window[..], match0, scan0, scan - scan0)
            && same == SameAt(window[..], match0, scan0, scan - scan0)
        decreases strend - scan
      {
        var k := 0;
        ghost var s0 := scan;
        while k < 8 && same
          invariant scan == s0 + k && (k == 0 ==> same)
          invariant scan0 + 2 <= scan <= strend && scan - scan0 == mat - match0
          invariant k <= 8 && (same ==> (scan - scan0 - k) % 8 == 2 && strend - scan >= 8 - k)
          invariant Agree(window[..], match0, scan0, scan - scan0)
              && same == SameAt(window[..], match0, scan0, scan - scan0)
          decreases 8 - k
        {
          AgreeMore(window[..], match0, scan0, scan - scan0);
          scan, mat, k := scan + 1, mat + 1, k + 1;
          same := window[scan] == window[mat];
        }
      }
      len := MAX_MATCH - (strend - scan);
      CommonIs(window[..], match0, scan0, MAX_MATCH, len);
    }

    /** Compare the current string with a candidate, unless a few bytes show that it does not
        agree for more than best_len bytes. The third byte is not compared: the keys are equal. */
    method Candidate(cur: nat, best_len: nat, scan_end1: byte, scan_end: byte) returns (tried: bool, len: nat)
      requires Indexed() && cur < strstart && strstart + MAX_MATCH < window.Length && 1 <= best_len <= MAX_MATCH
      requires Entry(g, g.base + cur, ins_h) && g.base + strstart + 3 <= |g.done|
          && KeyAt(g, g.base + strstart) == ins_h
      requires scan_end1 == window[strstart + best_len - 1] && scan_end == window[strstart + best_len]
      ensures tried ==> len == Common(window[..], cur, strstart, MAX_MATCH)
      ensures !tried ==> Common(window[..], cur, strstart, MAX_MATCH) <= best_len
    {
      hide HeadOk, PrevOk, Key, Holds, Common, Agree;
      tried := window[cur + best_len] == scan_end && window[cur + best_len - 1] == scan_end1
            && window[cur] == window[strstart] && window[cur + 1] == window[strstart + 1];
      len := 0;
      if tried {
        SameThird(cur, strstart);
        len := Extent(strstart, cur);
      } else {
        Skipped(window[..], cur, strstart, best_len);
      }
    }

    /** The place that a search may not go beyond. */
    function Limit(): nat
      reads this
    {
      if strstart + MIN_LOOKAHEAD > w_size then strstart + MIN_LOOKAHEAD - w_size else 0
    }

    /** How many candidates a search looks at. */
    function ChainLength(prev_length: nat): nat
      requires level <= 9
    {
      if prev_length >= GoodLength(level) then MaxChain(level) / 4 else MaxChain(level)
    }

    /** When a match is long enough to stop. */
    function Nice(): nat
      requires level <= 9
      reads this
    {
      if NiceLength(level) > lookahead then lookahead else NiceLength(level)
    }

    /** Following a link from a string in reach. */
    lemma {:induction false} LinkIs(cur: nat)
      requires Indexed() && Entry(g, g.base + cur, ins_h) && g.next == g.base + strstart + 1
          && cur < strstart < cur + w_size && cur < 2 * w_size
      ensures
          var s := Slot(cur, w_size);
          s < prev.Length
          && (prev[s] != 0 ==> prev[s] < cur && Entry(g, g.base + prev[s], ins_h))
    {
      hide Key, Holds;
      assert Live(g, g.base + cur);
      assert LinkOk(g, prev[..], g.base + cur);
    }

    /** What two places in the window have in common is a match, up to the end of the input. */
    lemma {:induction false} RealIs(cur: nat, n: nat)
      requires Indexed() && 0 < cur < strstart && strstart + MAX_MATCH <= window.Length
          && g.base + strstart + lookahead == |g.done|
      requires n == Common(window[..], cur, strstart, MAX_MATCH)
      ensures Real(g.done, g.floor, g.base + strstart, strstart - cur, if n <= lookahead then n else lookahead)
    {
      hide Key, HeadOk, PrevOk, Common, Holds;
      CommonAgree(window[..], cur, strstart, MAX_MATCH);
      var k := if n <= lookahead then n else lookahead;
      var a, b := g.base + cur, g.base + strstart;
      forall i: nat | i < k ensures SameAt(g.done, a, b, i) {
        assert SameAt(window[..], cur, strstart, i);
        WindowIs(cur + i);
        WindowIs(strstart + i);
      }
    }

    /** match_start is the start of a match of k bytes, cut at the lookahead. */
    ghost predicate Found(k: nat)
      reads this
    {
      && 0 < match_start < strstart && strstart - match_start <= w_size - MIN_LOOKAHEAD
      && Real(g.done, g.floor, g.base + strstart, strstart - match_start, if k <= lookahead then k else lookahead)
    }

    /** What a search that has looked at the candidates seen has found. */
    ghost predicate Searched(prev_length: nat, best_len: nat, seen: seq<nat>)
      reads this, window
    {
      && prev_length <= best_len <= MAX_MATCH && (best_len > prev_length ==> Found(best_len))
      && NoneLonger(window[..], seen, strstart, best_len)
    }

    /** A search in progress, at a candidate in reach. */
    ghost predicate Searching(cur: nat)
      reads this, window, prev, head
    {
      && Indexed() && g.base + strstart + lookahead == |g.done| && strstart + MIN_LOOKAHEAD <= 2 * w_size
          && g.next == g.base + strstart + 1
      && 0 < cur < strstart && strstart - cur <= w_size - MIN_LOOKAHEAD && Entry(g, g.base + cur, ins_h)
      && g.base + strstart + 3 <= |g.done| && KeyAt(g, g.base + strstart) == ins_h
    }

    /** Look at one candidate. */
    method Consider(cur: nat, ghost prev_length: nat, best_len: nat, ghost seen: seq<nat>) returns (best: nat)
      requires Searching(cur) && Searched(prev_length, best_len, seen) && 1 <= best_len
      modifies `match_start
      ensures Searched(prev_length, best, seen + [cur]) && best >= best_len && Searching(cur) && cur < strstart
      ensures match_start == if best > best_len then cur else old(match_start)
    {
      hide HeadOk, PrevOk, Key, Holds, Common, Agree, Real, NotLonger, NoneLonger;
      var tried, n := Candidate(cur, best_len, window[strstart + best_len - 1], window[strstart + best_len]);
      best := if tried && n > best_len then n else best_len;
      SeenMore(window[..], seen, strstart, best_len, cur, best);
      if best > best_len {
        RealIs(cur, n);
        match_start := cur;
      }
    }

    /** longest_match: a match that is longer than prev_length, if one is returned, is real and
        in reach; and unless it is long enough to stop, no candidate of the chain is longer. */
    method LongestMatch(cur_match: nat, prev_length: nat) returns (len: nat, ghost best: nat)
      requires Searching(cur_match) && 1 <= level && 2 <= prev_length <= MAX_MATCH
      modifies `match_start
      ensures len == (if best <= lookahead then best else lookahead) && prev_length <= best <= MAX_MATCH
      ensures len > prev_length ==> Found(len)
      ensures best >= Nice() || NoneLonger(window[..],
          Walk(prev[..], w_size, cur_match, Limit(), ChainLength(prev_length)), strstart, best)
      ensures match_start == old(match_start) || match_start < strstart
    {
      hide Searched, Searching, Found, NoneLonger, Real, Walk;
      var limit := Limit();
      Reach(cur_match, limit);
      var best_len, nice_match, chain_length := prev_length, Nice(), ChainLength(prev_length);
      var cur, go := cur_match, true;
      ghost var all, seen: seq<nat> := Walk(prev[..], w_size, cur_match, limit, chain_length), [];
      StartSearch(prev_length);
      while go
        invariant Searched(prev_length, best_len, seen) && best_len >= prev_length && limit == Limit()
        invariant go ==> chain_length > 0 && Searching(cur)
        invariant all == if go then seen + Walk(prev[..], w_size, cur, limit, chain_length) else seen
        invariant match_start == old(match_start) || match_start < strstart
        decreases go, cur
      {
        var best2 := Consider(cur, prev_length, best_len, seen);
        Reach(cur, limit);
        WalkMore(prev[..], w_size, cur, limit, chain_length);
        seen := seen + [cur];
        if best2 > best_len {
          best_len := best2;
          if best_len >= nice_match { break; }
        }
        cur := prev[Slot(cur, w_size)];
        chain_length := chain_length - 1;
        go := cur > limit && chain_length != 0;
      }
      EndSearch(prev_length, best_len, seen, if best_len <= lookahead then best_len else lookahead);
      best := best_len;
      len := if best_len <= lookahead then best_len else lookahead;
    }

    lemma {:induction false} StartSearch(prev_length: nat)
      requires prev_length <= MAX_MATCH
      ensures Searched(prev_length, prev_length, [])
    {
    }

    lemma {:induction false} EndSearch(prev_length: nat, best: nat, seen: seq<nat>, len: nat)
      requires Searched(prev_length, best, seen) && len == if best <= lookahead then best else lookahead
      ensures best <= MAX_MATCH && NoneLonger(window[..], seen, strstart, best) && (best > prev_length ==> Found(len))
    {
    }

    /** The next candidate is in reach, unless it is beyond the limit. */
    lemma {:induction false} Reach(cur: nat, limit: nat)
      requires Searching(cur) && limit == Limit()
      ensures prev.Length == w_size && level <= 9
      ensures var s := Slot(cur, w_size); s < prev.Length && (prev[s] > limit ==> prev[s] < cur && Searching(prev[s]))
    {
      hide HeadOk, PrevOk, Key, Holds, Entry;
      LinkIs(cur);
    }

    // ---- going on ----

    /** The string at strstart is in the chains now, if all of it is there. */
    ghost predicate Inserted()
      reads `g, `strstart, `lookahead, `insert, `match_start, `high_water, `ins_h, window, prev, head
    {
      && Indexed() && g.base + strstart + lookahead == |g.done| && match_start < U32 && high_water <= 2 * w_size
          && lookahead >= 1
      && g.next + insert <= g.base + strstart + 1 && insert <= strstart && (g.next == 0 || g.next + 2 <= |g.done|)
      && (insert > 0 ==> lookahead + insert < MIN_MATCH) && Rolls(strstart + 1)
    }

    /** Insert the string at strstart; the head of its chain can be searched if it is in reach. */
    method InsertHere() returns (hash_head: nat)
      requires Valid() && Rolls(strstart) && lookahead >= 1
      modifies `ins_h, `g, prev, head
      ensures Inserted() && g == old(g).(ins := g.ins, next := g.next)
      ensures hash_head != 0 ==> hash_head < strstart
      ensures (hash_head != 0 && strstart - hash_head <= w_size - MIN_LOOKAHEAD
               && strstart + MIN_LOOKAHEAD <= 2 * w_size)
          ==> Searching(hash_head)
    {
      hide Holds, HeadOk, PrevOk, Key, Update;
      hash_head := 0;
      if lookahead >= MIN_MATCH {
        hash_head := InsertString(strstart);
      }
    }

    /** Look for a longer match than prev_length. */
    method Search(hash_head: nat, prev_length: nat) returns (len: nat)
      requires Inserted() && Searching(hash_head) && 1 <= level && 2 <= prev_length <= MAX_MATCH
      modifies `match_start
      ensures Inserted() && len <= MAX_MATCH && len <= lookahead && (prev_length <= len || len == lookahead)
          && (len > prev_length ==> Found(len))
    {
      hide Holds, HeadOk, PrevOk, Key, Update, Real, NoneLonger, Walk, Rolls;
      ghost var best;
      len, best := LongestMatch(hash_head, prev_length);
    }

    /** One byte on. */
    method Advance()
      requires Inserted()
      modifies `strstart, `lookahead
      ensures Valid() && Rolls(strstart) && strstart == old(strstart) + 1 && lookahead == old(lookahead) - 1
    {
      hide Holds, HeadOk, PrevOk, Key, Update;
      strstart := strstart + 1;
      lookahead := lookahead - 1;
    }

    /** Go n places on and insert the strings there, but none beyond max_insert. */
    method InsertRun(n: nat, max_insert: int)
      requires Indexed() && g.next <= g.base + strstart + 1 && Rolls(strstart + 1)
          && g.base + max_insert + MIN_MATCH == |g.done|
      modifies `strstart, `ins_h, `g, prev, head
      ensures Indexed() && strstart == old(strstart) + n && g == old(g).(ins := g.ins, next := g.next)
          && Rolls(strstart + 1)
      ensures g.next <= g.base + strstart + 1 && (g.next == old(g).next || g.next + 2 <= |g.done|)
    {
      hide Holds, HeadOk, PrevOk, Key, Update, Indexed;
      var left: nat := n;
      while left > 0
        invariant left <= n && strstart == old(strstart) + n - left && Indexed()
            && g == old(g).(ins := g.ins, next := g.next)
        invariant Rolls(strstart + 1) && g.next <= g.base + strstart + 1
            && (g.next == old(g).next || g.next + 2 <= |g.done|)
      {
        strstart := strstart + 1;
        if strstart <= max_insert {
          var h := InsertString(strstart);
        }
        left := left - 1;
      }
    }

    /** The rest of deflate_fast after a match: go on behind it, inserting the strings of a
        short one. */
    method TakeMatch(length: nat)
      requires Inserted() && level <= 9 && MIN_MATCH <= length <= lookahead && length <= MAX_MATCH
          && strstart + MIN_LOOKAHEAD <= 2 * w_size
      modifies `strstart, `lookahead, `ins_h, `g, prev, head
      ensures Valid() && Rolls(strstart) && strstart == old(strstart) + length && lookahead == old(lookahead) - length
      ensures g == old(g).(ins := g.ins, next := g.next)
    {
      hide Holds, HeadOk, PrevOk, Update, Key;
      lookahead := lookahead - length;
      if length <= MaxLazy(level) && lookahead >= MIN_MATCH {
        InsertRun(length - 1, strstart + length + lookahead - MIN_MATCH);
        strstart := strstart + 1;
      } else {
        strstart := strstart + length;
        Rehash(strstart);
      }
    }

    /** The rest of deflate_slow after a match that started at strstart - 1. */
    method TakeLazy(prev_length: nat)
      requires Inserted() && MIN_MATCH <= prev_length <= lookahead + 1 && strstart >= 1
      modifies `strstart, `lookahead, `ins_h, `g, prev, head
      ensures Valid() && Rolls(strstart) && strstart == old(strstart) + prev_length - 1
          && lookahead == old(lookahead) + 1 - prev_length
      ensures g == old(g).(ins := g.ins, next := g.next)
    {
      hide Holds, HeadOk, PrevOk, Key, Update;
      var max_insert := strstart + lookahead - MIN_MATCH;
      lookahead := lookahead - (prev_length - 1);
      InsertRun(prev_length - 2, max_insert);
      strstart := strstart + 1;
    }

    /** Going on by length bytes, or by one, without the chains. */
    method Skip(length: nat)
      requires Valid() && 1 <= length <= lookahead
      modifies `strstart, `lookahead
      ensures Valid() && strstart == old(strstart) + length && lookahead == old(lookahead) - length
    {
      hide Holds, HeadOk, PrevOk;
      strstart := strstart + length;
      lookahead := lookahead - length;
    }

    /** How often the byte before s repeats, unless that is fewer than three times. */
    ghost function RunOf(s: nat): nat
      reads window
      requires 1 <= s && s + MAX_MATCH <= window.Length
    {
      var k := Common(window[..], s - 1, s, MAX_MATCH);
      if k < MIN_MATCH then 0 else k
    }

    /** The search of deflate_rle: how long the byte before strstart repeats. */
    method RunLength() returns (length: nat)
      requires Indexed() && g.base + strstart + lookahead == |g.done|
          && (lookahead >= MIN_MATCH ==> strstart + MAX_MATCH < window.Length)
      ensures length <= MAX_MATCH && length <= lookahead
          && (length >= MIN_MATCH ==> Real(g.done, g.floor, g.base + strstart, 1, length))
      ensures length == if lookahead >= MIN_MATCH && strstart > 0
                        then (var k := RunOf(strstart); if k <= lookahead then k else lookahead)
                        else 0
    {
      hide Indexed, RunOf, Real;
      length := 0;
      if lookahead >= MIN_MATCH && strstart > 0 {
        length := Run();
        if length > lookahead { length := lookahead; }
      }
    }

    method Run() returns (n: nat)
      requires Indexed() && 1 <= strstart && strstart + MAX_MATCH < window.Length
          && g.base + strstart + lookahead == |g.done|
      ensures n == RunOf(strstart) <= MAX_MATCH
          && (n >= MIN_MATCH ==> Real(g.done, g.floor, g.base + strstart, 1, if n <= lookahead then n else lookahead))
    {
      hide Indexed, Common, Real;
      n := 0;
      var byte0 := window[strstart - 1];
      if byte0 == window[strstart] && byte0 == window[strstart + 1] && byte0 == window[strstart + 2] {
        n := RunExtent(strstart, byte0);
        RunIsReal(n);
      } else {
        RunIsShort(window[..], strstart);
      }
    }

    /** How far a byte goes on, given that it does so for three places. */
    method RunExtent(scan0: nat, byte0: byte) returns (len: nat)
      requires 1 <= scan0 && scan0 + MAX_MATCH < window.Length && forall i :: scan0 - 1 <= i < scan0 + 3 ==>
          window[i] == byte0
      ensures len == Common(window[..], scan0 - 1, scan0, MAX_MATCH) && MIN_MATCH <= len
    {
      var scan, strend := scan0 + 2, scan0 + MAX_MATCH;
      var same := true;
      while same && scan < strend
        invariant scan0 + 2 <= scan <= strend && (same ==> (scan - scan0) % 8 == 2) && (scan == scan0 + 2 ==> same)
        invariant (forall i :: scan0 - 1 <= i < scan ==> window[i] == byte0) && same == (window[scan] == byte0)
        decreases strend - scan
      {
        var k := 0;
        ghost var s0 := scan;
        while k < 8 && same
          invariant scan == s0 + k && (k == 0 ==> same) && k <= 8
              && (same ==> (scan - scan0 - k) % 8 == 2 && strend - scan >= 8 - k)
          invariant (forall i :: scan0 - 1 <= i < scan ==> window[i] == byte0) && same == (window[scan] == byte0)
          decreases 8 - k
        {
          scan, k := scan + 1, k + 1;
          same := window[scan] == byte0;
        }
      }
      len := MAX_MATCH - (strend - scan);
      RunAgrees(window[..], scan0, byte0, len);
      CommonIs(window[..], scan0 - 1, scan0, MAX_MATCH, len);
    }

    lemma {:induction false} RunIsReal(n: nat)
      requires Indexed() && 0 < strstart && strstart + MAX_MATCH <= window.Length
          && g.base + strstart + lookahead == |g.done|
      requires n == Common(window[..], strstart - 1, strstart, MAX_MATCH)
      ensures Real(g.done, g.floor, g.base + strstart, 1, if n <= lookahead then n else lookahead)
    {
      hide Key, HeadOk, PrevOk, Common, Holds;
      CommonAgree(window[..], strstart - 1, strstart, MAX_MATCH);
      var k := if n <= lookahead then n else lookahead;
      var a, b, p := g.base + strstart - 1, g.base + strstart, strstart - 1;
      forall i: nat | i < k ensures SameAt(g.done, a, b, i) {
        assert SameAt(window[..], p, strstart, i);
        WindowIs(p + i);
        WindowIs(strstart + i);
      }
    }
  }

  lemma {:induction false} InsertAt(g: Past, head: seq<nat>, prev: seq<nat>, a: nat)
    requires HeadOk(g, head) && PrevOk(g, prev) && |prev| == g.w && g.base <= a && g.next <= a && a + 3 <= |g.done|
    requires a < g.base + 2 * g.w && KeyAt(g, a) < |head|
    ensures var h := KeyAt(g, a);
            var g2 := g.(ins := g.ins + {a}, next := a + 1);
            && HeadOk(g2, head[h := a - g.base]) && PrevOk(g2, prev[Slot(a - g.base, g.w) := head[h]])
            && Points(g2, head[h], h) && (head[h] != 0 ==> g.base + head[h] < a) && KeyAt(g2, a) == h
  {
    hide Key;
    InsertKeeps(g, head, prev, a);
    assert Points(g, head[KeyAt(g, a)], KeyAt(g, a));
  }

  lemma {:induction false} HoldsLength(done: seq<byte>, base: nat, window: seq<byte>)
    requires Holds(done, base, window)
    ensures base <= |done| <= base + |window|
  {
  }

  lemma {:induction false} SlideHolds(done: seq<byte>, base: nat, w: nat, win: seq<byte>, win2: seq<byte>)
    requires Holds(done, base, win) && |win| == |win2| && base + w <= |done|
    requires forall i :: 0 <= i < |done| - base - w ==> win2[i] == win[w..][i]
    ensures Holds(done, base + w, win2)
  {
    var n := |done| - base;
    assert win[..n][w..] == done[base..][w..];
    assert win2[..n - w] == win[..n][w..];
    assert done[base..][w..] == done[base + w..];
  }

  lemma {:induction false} ReadHolds(done: seq<byte>, base: nat, win: seq<byte>, win2: seq<byte>, more: seq<byte>)
    requires Holds(done, base, win) && |win| == |win2| && |done| - base + |more| <= |win|
    requires var n := |done| - base; win2[..n] == win[..n] && win2[n..n + |more|] == more
    ensures Holds(done + more, base, win2)
  {
    var n := |done| - base;
    assert win2[..n + |more|] == win2[..n] + win2[n..n + |more|];
    assert (done + more)[base..] == done[base..] + more;
  }

  lemma {:induction false} SameHolds(done: seq<byte>, base: nat, win: seq<byte>, win2: seq<byte>)
    requires Holds(done, base, win) && |win| == |win2| && win2[..|done| - base] == win[..|done| - base]
    ensures Holds(done, base, win2)
  {
  }

  /** One of the loops of slide_hash. */
  method SlideTable(a: array<nat>, wsize: nat)
    modifies a
    ensures AllSlid(old(a[..]), a[..], wsize)
  {
    var n := a.Length;
    while n > 0
      invariant 0 <= n <= a.Length
      invariant forall k :: 0 <= k < n ==> a[k] == old(a[k])
      invariant forall k :: n <= k < a.Length ==> a[k] == Slid(old(a[k]), wsize)
    {
      n := n - 1;
      var m := a[n];
      a[n] := if m >= wsize then m - wsize else 0;
    }
  }

  /** No candidate has more in common with the string at s. */
  ghost predicate NoneLonger(window: seq<byte>, cands: seq<nat>, s: nat, best: nat) {
    forall i: nat :: i < |cands| ==> NotLonger(window, cands[i], s, best)
  }

  ghost predicate NotLonger(window: seq<byte>, p: nat, s: nat, best: nat) {
    p + MAX_MATCH <= |window| && s + MAX_MATCH <= |window| && Common(window, p, s, MAX_MATCH) <= best
  }

  lemma {:induction false} Skipped(window: seq<byte>, p: nat, q: nat, k: nat)
    requires p < q && q + MAX_MATCH < |window| && 1 <= k <= MAX_MATCH
    requires !SameAt(window, p, q, k) || !SameAt(window, p, q, k - 1) || !SameAt(window, p, q, 0)
        || !SameAt(window, p, q, 1)
    ensures Common(window, p, q, MAX_MATCH) <= k
  {
    hide Common, SameAt;
    if !SameAt(window, p, q, 0) {
      CommonBelow(window, p, q, MAX_MATCH, 0);
    } else if !SameAt(window, p, q, 1) {
      CommonBelow(window, p, q, MAX_MATCH, 1);
    } else if !SameAt(window, p, q, k - 1) {
      CommonBelow(window, p, q, MAX_MATCH, k - 1);
    } else if k < MAX_MATCH {
      CommonBelow(window, p, q, MAX_MATCH, k);
    }
  }

  lemma {:induction false} WalkMore(prev: seq<nat>, w: nat, cur: nat, limit: nat, n: nat)
    requires |prev| == w && n > 0 && Slot(cur, w) < w
    ensures var q := prev[Slot(cur, w)];
            Walk(prev, w, cur, limit, n) == [cur] + if q > limit && n - 1 != 0 then Walk(prev, w, q, limit, n - 1)
                else []
  {
  }

  lemma {:induction false} SeenMore(window: seq<byte>, seen: seq<nat>, s: nat, best: nat, cur: nat, best2: nat)
    requires NoneLonger(window, seen, s, best) && best <= best2
    requires cur + MAX_MATCH <= |window| && s + MAX_MATCH <= |window| && Common(window, cur, s, MAX_MATCH) <= best2
    ensures NoneLonger(window, seen + [cur], s, best2)
  {
    hide Common;
    forall i: nat | i < |seen + [cur]| ensures NotLonger(window, (seen + [cur])[i], s, best2) {
      if i < |seen| { assert NotLonger(window, seen[i], s, best); }
    }
  }

  lemma {:induction false} RunAgrees(window: seq<byte>, s: nat, v: byte, n: nat)
    requires 1 <= s && s + n <= |window| && forall i :: s - 1 <= i < s + n ==> window[i] == v
    ensures Agree(window, s - 1, s, n)
    ensures s + n < |window| && window[s + n] != v ==> !SameAt(window, s - 1, s, n)
  {
  }

  lemma {:induction false} RunIsShort(window: seq<byte>, s: nat)
    requires 1 <= s && s + MAX_MATCH <= |window|
    requires !(window[s - 1] == window[s] == window[s + 1] == window[s + 2])
    ensures Common(window, s - 1, s, MAX_MATCH) < MIN_MATCH
  {
    hide Common;
    if window[s - 1] != window[s] {
      CommonBelow(window, s - 1, s, MAX_MATCH, 0);
    } else if window[s] != window[s + 1] {
      CommonBelow(window, s - 1, s, MAX_MATCH, 1);
    } else {
      CommonBelow(window, s - 1, s, MAX_MATCH, 2);
    }
  }

  lemma {:induction false} HoldsNothing(done: seq<byte>, window: seq<byte>)
    ensures Holds(done, |done|, window)
  {
    assert done[|done|..] == [];
  }
}
