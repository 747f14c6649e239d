/** The sizes that jsmn counts in its tokens: how many tokens each one holds. Which token holds which
    is told here by the text and the ranges of the tokens alone, for any text at all. */
module JsmnSizes {
  import opened Jsmn

  predicate Container(t: Token) {
    t.typ == OBJECT || t.typ == ARRAY
  }

  /** Place q is part of a string or a primitive. */
  ghost predicate Inside(toks: seq<Token>, q: nat) {
    exists i :: 0 <= i < |toks| && !Container(toks[i]) && toks[i].start <= q < toks[i].end
  }

  /** The last of the first n tokens that starts before q, or -1. */
  function LastStarted(toks: seq<Token>, q: nat, n: nat): (i: int)
    requires n <= |toks|
    ensures -1 <= i < n && (i >= 0 ==> toks[i].start < q) && forall j :: i < j < n ==> toks[j].start >= q
  {
    if n == 0 then -1 else if toks[n - 1].start < q then n - 1 else LastStarted(toks, q, n - 1)
  }

  /** The container is around what stands at q. */
  predicate Around(t: Token, q: nat) {
    Container(t) && t.start < q && (t.end == -1 || q < t.end)
  }

  /** The innermost container around q, among the first n tokens, or -1. */
  function Innermost(toks: seq<Token>, q: nat, n: nat): (i: int)
    requires n <= |toks|
    ensures -1 <= i < n && (i >= 0 ==> Around(toks[i], q)) && forall j :: i < j < n ==> !Around(toks[j], q)
  {
    if n == 0 then -1 else if Around(toks[n - 1], q) then n - 1 else Innermost(toks, q, n - 1)
  }

  /** What holds behind character c: as before it, unless c is a bracket, a colon, or a comma behind a
      value. */
  function Behind(c: char, inside: bool, held: int, leaf: bool, begun: int, around: int, before: int): int {
    if inside then held
    else if c == '{' || c == '[' then begun
    else if c == '}' || c == ']' then around
    else if c == ':' then before
    else if c == ',' && leaf && around != -1 then around
    else held
  }

  /** The token that holds what comes up at p, or -1. Behind an opening bracket it is the container that
      begins there, behind a closing one the container around, behind a colon the token before the
      colon; and behind a comma, if a key or value was the holder, it is the container around again. */
  ghost function Holder(js: string, toks: seq<Token>, p: nat): (h: int)
    requires p <= |js|
    ensures -1 <= h < |toks|
  {
    if p == 0 then -1
    else
      var q := p - 1;
      var h := Holder(js, toks, q);
      Behind(js[q], Inside(toks, q), h, h != -1 && !Container(toks[h]), LastStarted(toks, p, |toks|),
          Innermost(toks, p, |toks|), LastStarted(toks, q, |toks|))
  }

  /** Where the text of a token begins: a string begins with its quote. */
  function First(t: Token): int {
    if t.typ == STRING then t.start - 1 else t.start
  }

  ghost predicate Holds(js: string, toks: seq<Token>, i: int, j: nat)
    requires j < |toks|
  {
    0 <= First(toks[j]) <= |js| && Holder(js, toks, First(toks[j])) == i
  }

  /** How many of the first n tokens token i holds. */
  ghost function Children(js: string, toks: seq<Token>, i: int, n: nat): nat
    requires n <= |toks|
  {
    if n == 0 then 0 else Children(js, toks, i, n - 1) + if Holds(js, toks, i, n - 1) then 1 else 0
  }

  ghost predicate Sized(js: string, toks: seq<Token>) {
    forall i :: 0 <= i < |toks| ==> toks[i].size == Children(js, toks, i, |toks|)
  }

  // ---- what is told does not change ----

  /** The same tokens, but that some may have been closed at p or behind it, with new ones behind p. */
  ghost predicate Grown(toks: seq<Token>, more: seq<Token>, p: nat) {
    && |toks| <= |more|
    && (forall i :: 0 <= i < |toks| ==> SameRange(toks[i], more[i], p))
    && (forall i :: |toks| <= i < |more| ==> more[i].start >= p)
  }

  ghost predicate SameRange(t: Token, u: Token, p: nat) {
    t.typ == u.typ && t.start == u.start && (t.end == u.end || (Container(t) && t.end == -1 && u.end > p))
  }

  lemma {:induction false} StartedSame(toks: seq<Token>, more: seq<Token>, p: nat, q: nat, n: nat)
    requires Grown(toks, more, p) && q <= p && n <= |more|
    ensures LastStarted(more, q, n) == LastStarted(toks, q, if n < |toks| then n else |toks|)
  {
    if n > 0 {
      assert n <= |toks| ==> SameRange(toks[n - 1], more[n - 1], p);
      StartedSame(toks, more, p, q, n - 1);
    }
  }

  lemma {:induction false} InnermostSame(toks: seq<Token>, more: seq<Token>, p: nat, q: nat, n: nat)
    requires Grown(toks, more, p) && q <= p && n <= |more|
    ensures Innermost(more, q, n) == Innermost(toks, q, if n < |toks| then n else |toks|)
  {
    if n > 0 {
      assert n <= |toks| ==> SameRange(toks[n - 1], more[n - 1], p);
      InnermostSame(toks, more, p, q, n - 1);
    }
  }

  lemma {:induction false} InsideSame(toks: seq<Token>, more: seq<Token>, p: nat, q: nat)
    requires Grown(toks, more, p) && q < p
    ensures Inside(more, q) <==> Inside(toks, q)
  {
    forall i | 0 <= i < |toks|
      ensures SameRange(toks[i], more[i], p)
    {
    }
    if Inside(toks, q) {
      var i :| 0 <= i < |toks| && !Container(toks[i]) && toks[i].start <= q < toks[i].end;
      assert SameRange(toks[i], more[i], p);
      assert !Container(more[i]) && more[i].start <= q < more[i].end;
    }
    if Inside(more, q) {
      var i :| 0 <= i < |more| && !Container(more[i]) && more[i].start <= q < more[i].end;
      assert SameRange(toks[i], more[i], p);
      assert !Container(toks[i]) && toks[i].start <= q < toks[i].end;
    }
  }

  /** Who held what before p stays. */
  lemma {:induction false} HolderSame(js: string, toks: seq<Token>, more: seq<Token>, p: nat, q: nat)
    requires Grown(toks, more, p) && q <= p && q <= |js|
    ensures Holder(js, more, q) == Holder(js, toks, q)
    decreases q
  {
    hide Grown, Inside, LastStarted, Innermost, Behind;
    if q > 0 {
      HolderSame(js, toks, more, p, q - 1);
      InsideSame(toks, more, p, q - 1);
      StartedSame(toks, more, p, q, |more|);
      StartedSame(toks, more, p, q - 1, |more|);
      InnermostSame(toks, more, p, q, |more|);
      GrownAt(toks, more, p, Holder(js, toks, q - 1));
    }
  }

  lemma {:induction false} GrownAt(toks: seq<Token>, more: seq<Token>, p: nat, h: int)
    requires Grown(toks, more, p)
    ensures |toks| <= |more| && (0 <= h < |toks| ==> SameRange(toks[h], more[h], p))
  {
  }

  /** All tokens begin before p. */
  ghost predicate Begun(toks: seq<Token>, p: nat) {
    forall j :: 0 <= j < |toks| ==> 0 <= First(toks[j]) < p && toks[j].start >= 0
  }

  lemma {:induction false} ChildrenSame(js: string, toks: seq<Token>, more: seq<Token>, p: nat, i: int, n: nat)
    requires Grown(toks, more, p) && Begun(toks, p) && p <= |js| && n <= |toks|
    ensures |toks| <= |more| && Children(js, more, i, n) == Children(js, toks, i, n)
  {
    hide Holder;
    if n > 0 {
      ChildrenSame(js, toks, more, p, i, n - 1);
      assert SameRange(toks[n - 1], more[n - 1], p);
      assert First(more[n - 1]) == First(toks[n - 1]);
      HolderSame(js, toks, more, p, First(toks[n - 1]));
    }
  }

  // ---- a run ----

  /** The state knows the holder, and all sizes count what is held. */
  ghost predicate Exact(js: string, st: State) {
    && Sane(st) && st.pos <= |js| && Nested(js, st.toks, st.pos) && st.toksuper == Holder(js, st.toks, st.pos)
    && Sized(js, st.toks)
  }

  lemma {:induction false} NestedBegun(js: string, toks: seq<Token>, p: nat)
    requires Nested(js, toks, p)
    ensures Begun(toks, p) && !Inside(toks, p) && forall j :: 0 <= j < |toks| ==> toks[j].start < p
  {
    forall j | 0 <= j < |toks|
      ensures 0 <= First(toks[j]) < p && 0 <= toks[j].start < p && (Container(toks[j]) || toks[j].end <= p)
    {
      assert Placed(js, toks[j], p);
    }
  }

  lemma {:induction false} LastIsLast(toks: seq<Token>, q: nat)
    requires toks != [] ==> toks[|toks| - 1].start < q
    ensures LastStarted(toks, q, |toks|) == |toks| - 1
  {
  }

  /** What is open is around all that comes. */
  lemma {:induction false} InnermostIsOpen(js: string, toks: seq<Token>, q: nat, n: nat)
    requires Nested(js, toks, q) && n <= |toks|
    ensures Innermost(toks, q, n) == LastOpen(toks, n)
  {
    if n > 0 {
      assert Placed(js, toks[n - 1], q);
      InnermostIsOpen(js, toks, q, n - 1);
    }
  }

  /** Characters that are no brackets, colons or commas change nothing. */
  lemma {:induction false} HolderThrough(js: string, toks: seq<Token>, p: nat, q: nat)
    requires p <= q <= |js|
    requires forall r :: p <= r < q ==> Inside(toks, r) || js[r] !in {'{', '[', '}', ']', ':', ','}
    ensures Holder(js, toks, q) == Holder(js, toks, p)
    decreases q
  {
    hide Inside, LastStarted, Innermost;
    if q > p { HolderThrough(js, toks, p, q - 1); }
  }

  /** No token is held by one that is not there. */
  lemma {:induction false} ChildrenNone(js: string, toks: seq<Token>, i: int, n: nat)
    requires n <= |toks| <= i
    ensures Children(js, toks, i, n) == 0
  {
    hide Holder;
    if n > 0 { ChildrenNone(js, toks, i, n - 1); }
  }

  lemma {:induction false} HeldSame(js: string, st: State, p: nat)
    requires Sane(st)
    ensures Grown(st.toks, Held(st), p)
    ensures forall i :: 0 <= i < |st.toks| ==>
              Held(st)[i] == st.toks[i].(size := st.toks[i].size + if i == st.toksuper then 1 else 0)
  {
  }

  lemma {:induction false} GrownMore(toks: seq<Token>, more: seq<Token>, t: Token, p: nat)
    requires Grown(toks, more, p) && |more| == |toks| && t.start >= p
    ensures Grown(toks, more + [t], p)
  {
    forall i | 0 <= i < |toks|
      ensures SameRange(toks[i], (more + [t])[i], p)
    {
      assert SameRange(toks[i], more[i], p);
    }
  }

  /** A new token is counted by its holder. */
  lemma {:induction false} SizedMore(js: string, st: State, t: Token)
    requires Exact(js, st) && t.start >= st.pos && First(t) == st.pos && t.size == 0
    ensures Sized(js, Held(st) + [t]) && Holder(js, Held(st) + [t], st.pos) == st.toksuper
  {
    hide Holder, Children, Held, Nested, Grown, Begun;
    var toks, p := st.toks, st.pos;
    var more := Held(st) + [t];
    HeldSame(js, st, p);
    GrownMore(toks, Held(st), t, p);
    NestedBegun(js, toks, p);
    HolderSame(js, toks, more, p, p);
    forall i | 0 <= i < |more|
      ensures more[i].size == Children(js, more, i, |more|)
    {
      ChildrenSame(js, toks, more, p, i, |toks|);
      OneChild(js, more, i, |toks|);
      if i == |toks| { ChildrenNone(js, toks, i, |toks|); }
    }
  }

  lemma {:induction false} OneChild(js: string, toks: seq<Token>, i: int, n: nat)
    requires n < |toks|
    ensures Children(js, toks, i, n + 1) == Children(js, toks, i, n) + if Holds(js, toks, i, n) then 1 else 0
  {
  }

  /** Closing a container leaves all sizes as they are. */
  lemma {:induction false} SizedClose(js: string, st: State, i: nat)
    requires Exact(js, st) && i < |st.toks| && Container(st.toks[i]) && st.toks[i].end == -1
    ensures Sized(js, st.toks[i := st.toks[i].(end := st.pos + 1)])
  {
    hide Holder, Children, Nested, Begun;
    var toks, p := st.toks, st.pos;
    var more := toks[i := toks[i].(end := p + 1)];
    assert Grown(toks, more, p);
    hide Grown;
    NestedBegun(js, toks, p);
    forall k | 0 <= k < |more|
      ensures more[k].size == Children(js, more, k, |more|)
    {
      ChildrenSame(js, toks, more, p, k, |toks|);
    }
  }

  lemma {:induction false} OpenBefore(toks: seq<Token>, i: nat, n: nat)
    requires i < n <= |toks| && !Open(toks[i]) && forall j :: i < j < n ==> !Open(toks[j])
    ensures LastOpen(toks, n) == LastOpen(toks, i)
    decreases n
  {
    if n > i + 1 { OpenBefore(toks, i, n - 1); }
  }

  lemma {:induction false} ExactOpen(js: string, st: State, n: nat)
    requires Exact(js, st) && !Over(js, st.pos) && (js[st.pos] == '{' || js[st.pos] == '[')
    ensures var o := OpenTurn(js, st, n); o.Go? ==> Exact(js, o.st)
  {
    hide Nested, Held, Children, Sized, Inside, LastStarted, Innermost, Holder;
    NestedTurn(js, st, n);
    var p := st.pos;
    var t := Token(TypeOf(js[p]), p, -1, 0);
    SizedMore(js, st, t);
    LastIsLast(Held(st) + [t], p + 1);
    HeldSame(js, st, p);
    GrownMore(st.toks, Held(st), t, p);
    NestedBegun(js, st.toks, p);
    NotInsideMore(js, st, t);
    BehindOpen(js, Held(st) + [t], p);
  }

  lemma {:induction false} BehindOpen(js: string, toks: seq<Token>, p: nat)
    requires p < |js| && !Inside(toks, p) && (js[p] == '{' || js[p] == '[')
    ensures Holder(js, toks, p + 1) == LastStarted(toks, p + 1, |toks|)
  {
    hide Inside, LastStarted, Innermost;
  }

  /** A container that begins at p is not text at p. */
  lemma {:induction false} NotInsideMore(js: string, st: State, t: Token)
    requires Sane(st) && Nested(js, st.toks, st.pos) && Container(t)
    ensures !Inside(Held(st) + [t], st.pos)
  {
    hide Nested;
    NestedBegun(js, st.toks, st.pos);
    var more := Held(st) + [t];
    forall i | 0 <= i < |more| && !Container(more[i])
      ensures !(more[i].start <= st.pos < more[i].end)
    {
      assert !Container(st.toks[i]) && more[i].start == st.toks[i].start && more[i].end == st.toks[i].end;
    }
  }

  lemma {:induction false} ExactClose(js: string, st: State)
    requires Exact(js, st) && !Over(js, st.pos) && (js[st.pos] == '}' || js[st.pos] == ']')
    ensures var o := CloseTurn(js, st); o.Go? ==> Exact(js, o.st)
  {
    hide Nested, Children, Sized, Inside, LastOpen, Innermost;
    NestedTurn(js, st, 0);
    var o, p := CloseTurn(js, st), st.pos;
    if o.Go? {
      var i := LastOpen(st.toks, |st.toks|);
      SizedClose(js, st, i);
      var more := o.st.toks;
      ClosedInside(js, st.toks, p, i);
      InnermostIsOpen(js, more, p + 1, |more|);
      OpenBefore(more, i, |more|);
    }
  }

  lemma {:induction false} ClosedInside(js: string, toks: seq<Token>, p: nat, i: nat)
    requires Nested(js, toks, p) && i < |toks| && Container(toks[i])
    ensures !Inside(toks[i := toks[i].(end := p + 1)], p)
  {
    hide Nested;
    NestedBegun(js, toks, p);
    var more := toks[i := toks[i].(end := p + 1)];
    forall k | 0 <= k < |more| && !Container(more[k])
      ensures !(more[k].start <= p < more[k].end)
    {
      assert toks[k] == more[k] && !Container(toks[k]);
    }
  }

  /** A string or primitive, all of whose characters are inside it or quotes. */
  lemma {:induction false} ExactLeaf(js: string, st: State, typ: Type, start: nat, end: nat, next: nat, n: nat)
    requires Exact(js, st) && (typ == STRING || typ == PRIMITIVE) && st.pos <= start <= end <= next <= |js|
    requires First(Token(typ, start, end, 0)) == st.pos
    requires forall r :: (st.pos <= r < start || end <= r < next) ==> js[r] == '"'
    requires var o := LeafTurn(st, typ, start, end, next, n); o.Go? ==> Nested(js, o.st.toks, next)
    ensures var o := LeafTurn(st, typ, start, end, next, n); o.Go? ==> Exact(js, o.st)
  {
    hide Nested, Held, Children, Sized, Holder;
    var t := Token(typ, start, end, 0);
    SizedMore(js, st, t);
    var more := Held(st) + [t];
    forall r | st.pos <= r < next
      ensures Inside(more, r) || js[r] !in {'{', '[', '}', ']', ':', ','}
    {
      if start <= r < end { assert !Container(more[|st.toks|]) && more[|st.toks|].start <= r < more[|st.toks|].end; }
    }
    HolderThrough(js, more, st.pos, next);
  }

  /** White space, colons and commas. */
  lemma {:induction false} ExactBetween(js: string, st: State, n: nat)
    requires Exact(js, st) && !Over(js, st.pos) && js[st.pos] in {'\t', '\r', '\n', ' ', ':', ','}
    ensures var o := Turn(js, st, n); o.Go? ==> Exact(js, o.st)
  {
    hide Nested, Children, Sized, Inside, LastOpen, Innermost, Holder, LastStarted, Begun;
    NestedTurn(js, st, n);
    var p := st.pos;
    NestedBegun(js, st.toks, p);
    NestedLater(js, st.toks, p, p + 1);
    InnermostIsOpen(js, st.toks, p + 1, |st.toks|);
    LastIsLast(st.toks, p);
    HolderNext(js, st.toks, p);
  }

  /** The holder behind a character that is not text. */
  lemma {:induction false} HolderNext(js: string, toks: seq<Token>, p: nat)
    requires p < |js| && !Inside(toks, p)
    ensures var h := Holder(js, toks, p);
            Holder(js, toks, p + 1)
            == Behind(js[p], false, h, h != -1 && !Container(toks[h]), LastStarted(toks, p + 1, |toks|),
                      Innermost(toks, p + 1, |toks|), LastStarted(toks, p, |toks|))
  {
    hide Inside, LastStarted, Innermost, Behind;
  }

  lemma {:induction false} ExactTurn(js: string, st: State, n: nat)
    requires Exact(js, st) && !Over(js, st.pos)
    ensures var o := Turn(js, st, n); o.Go? ==> Exact(js, o.st)
  {
    hide Exact, Nested, LastOpen, Held, OpenTurn, CloseTurn;
    ExactSane(js, st);
    var c, p := js[st.pos], st.pos;
    NestedTurn(js, st, n);
    if c == '{' || c == '[' {
      ExactOpen(js, st, n);
    } else if c == '}' || c == ']' {
      ExactClose(js, st);
    } else if c == '"' {
      var e := StringEnd(js, p + 1);
      QuoteAt(js, p + 1);
      if e.Found? { ExactLeaf(js, st, STRING, p + 1, e.p, e.p + 1, n); }
    } else if c in {'\t', '\r', '\n', ' ', ',', ':'} {
      ExactBetween(js, st, n);
    } else {
      var e := PrimitiveEnd(js, p);
      if e.Found? { ExactLeaf(js, st, PRIMITIVE, p, e.p, e.p, n); }
    }
  }

  lemma {:induction false} ExactSane(js: string, st: State)
    requires Exact(js, st)
    ensures Sane(st) && Nested(js, st.toks, st.pos) && st.pos <= |js|
  {
  }

  /** Wherever a run stops, every size is the number of tokens held. */
  lemma {:induction false} SizesCount(js: string, st: State, n: nat)
    requires Exact(js, st)
    ensures Sane(st) && Exact(js, Parsed(js, st, n).st)
    decreases |js| - st.pos
  {
    hide Exact, Turn;
    ExactSane(js, st);
    if !Over(js, st.pos) {
      ExactTurn(js, st, n);
      var o := Turn(js, st, n);
      if o.Go? { SizesCount(js, o.st, n); }
    }
  }

  lemma {:induction false} StartExact(js: string)
    ensures Exact(js, START)
  {
    StartNests(js);
  }

  // ---- the elements of a container ----

  ghost predicate Starts(toks: seq<Token>, q: nat) {
    exists i :: 0 <= i < |toks| && Container(toks[i]) && toks[i].start == q
  }

  /** Before p, every opening bracket that is not text has its token. */
  ghost predicate Bracketed(js: string, toks: seq<Token>, p: nat) {
    p <= |js| && forall q: nat :: q < p && (js[q] == '{' || js[q] == '[') ==> Inside(toks, q) || Starts(toks, q)
  }

  lemma {:induction false} BracketedGrows(js: string, toks: seq<Token>, more: seq<Token>, p: nat, next: nat)
    requires Bracketed(js, toks, p) && Grown(toks, more, p) && p <= next <= |js|
    requires forall q: nat :: p <= q < next && (js[q] == '{' || js[q] == '[') ==> Inside(more, q) || Starts(more, q)
    ensures Bracketed(js, more, next)
  {
    hide Inside, Grown;
    forall q: nat | q < next && (js[q] == '{' || js[q] == '[')
      ensures Inside(more, q) || Starts(more, q)
    {
      if q < p {
        InsideSame(toks, more, p, q);
        if Starts(toks, q) {
          var i :| 0 <= i < |toks| && Container(toks[i]) && toks[i].start == q;
          GrownAt(toks, more, p, i);
          assert Container(more[i]) && more[i].start == q;
        }
      }
    }
  }

  lemma {:induction false} GrownSelf(toks: seq<Token>, p: nat)
    ensures Grown(toks, toks, p)
  {
  }

  lemma {:induction false} GrownClosed(toks: seq<Token>, i: nat, p: nat)
    requires i < |toks| && Container(toks[i]) && toks[i].end == -1
    ensures Grown(toks, toks[i := toks[i].(end := p + 1)], p)
  {
  }

  lemma {:induction false} BracketedTurn(js: string, st: State, n: nat)
    requires Sane(st) && !Over(js, st.pos) && Nested(js, st.toks, st.pos) && Bracketed(js, st.toks, st.pos)
    ensures var o := Turn(js, st, n); o.Go? ==> Bracketed(js, o.st.toks, o.st.pos)
  {
    hide Bracketed, Nested, Grown, Held, LastOpen, Inside;
    var o, toks, p := Turn(js, st, n), st.toks, st.pos;
    var c := js[p];
    if o.Go? {
      GrownSelf(toks, p);
      HeldSame(js, st, p);
      if c == '{' || c == '[' {
        var t := Token(TypeOf(c), p, -1, 0);
        GrownMore(toks, Held(st), t, p);
        assert Container((Held(st) + [t])[|toks|]);
        BracketedGrows(js, toks, Held(st) + [t], p, p + 1);
      } else if c == '}' || c == ']' {
        GrownClosed(toks, LastOpen(toks, |toks|), p);
        BracketedGrows(js, toks, o.st.toks, p, p + 1);
      } else if c == '"' {
        var e := StringEnd(js, p + 1);
        QuoteAt(js, p + 1);
        BracketedLeaf(js, st, Token(STRING, p + 1, e.p, 0), p + 1, e.p, e.p + 1);
      } else if c in {'\t', '\r', '\n', ' ', ',', ':'} {
        BracketedGrows(js, toks, toks, p, p + 1);
      } else {
        var e := PrimitiveEnd(js, p);
        BracketedLeaf(js, st, Token(PRIMITIVE, p, e.p, 0), p, e.p, e.p);
      }
    }
  }

  lemma {:induction false} BracketedLeaf(js: string, st: State, t: Token, start: nat, end: nat, next: nat)
    requires Sane(st) && Bracketed(js, st.toks, st.pos) && !Container(t) && t.start == start && t.end == end
    requires st.pos <= start <= end <= next <= |js|
    requires forall r :: (st.pos <= r < start || end <= r < next) ==> js[r] == '"'
    ensures Bracketed(js, Held(st) + [t], next)
  {
    hide Held, Grown, Bracketed;
    var more := Held(st) + [t];
    HeldSame(js, st, st.pos);
    GrownMore(st.toks, Held(st), t, st.pos);
    forall q: nat | st.pos <= q < next && (js[q] == '{' || js[q] == '[')
      ensures Inside(more, q)
    {
      assert !Container(more[|st.toks|]) && more[|st.toks|].start <= q < more[|st.toks|].end;
    }
    BracketedGrows(js, st.toks, more, st.pos, next);
  }

  lemma {:induction false} BracketsKnown(js: string, st: State, n: nat)
    requires Sane(st) && Nested(js, st.toks, st.pos) && Bracketed(js, st.toks, st.pos)
    ensures var r := Parsed(js, st, n).st; Bracketed(js, r.toks, r.pos)
    decreases |js| - st.pos
  {
    hide Nested, Bracketed, Turn;
    if !Over(js, st.pos) {
      NestedTurn(js, st, n);
      BracketedTurn(js, st, n);
      var o := Turn(js, st, n);
      if o.Go? { BracketsKnown(js, o.st, n); }
    }
  }

  /** No colon stands directly in container i, or right behind it. */
  ghost predicate NoKeys(js: string, toks: seq<Token>, i: int, p: nat) {
    forall q: nat :: q < p <= |js| && js[q] == ':' && !Inside(toks, q) ==>
                       Innermost(toks, q, |toks|) != i && LastStarted(toks, q, |toks|) != i
  }

  /** What is around changes only at brackets that are not text. */
  lemma {:induction false} AroundSame(js: string, toks: seq<Token>, p: nat, q: nat, j: nat)
    requires Nested(js, toks, p) && q < p <= |js| && j < |toks|
    requires Inside(toks, q) || js[q] !in {'{', '[', '}', ']'}
    ensures Around(toks[j], q) <==> Around(toks[j], q + 1)
  {
    var t := toks[j];
    assert Placed(js, t, p);
    if Inside(toks, q) {
      var k :| 0 <= k < |toks| && !Container(toks[k]) && toks[k].start <= q < toks[k].end;
      assert Placed(js, toks[k], p);
      assert j < k ==> Apart(toks[j], toks[k]);
      assert k < j ==> Apart(toks[k], toks[j]);
    }
  }

  lemma {:induction false} InnermostKeeps(js: string, toks: seq<Token>, p: nat, q: nat, n: nat)
    requires Nested(js, toks, p) && q < p <= |js| && n <= |toks|
    requires Inside(toks, q) || js[q] !in {'{', '[', '}', ']'}
    ensures Innermost(toks, q, n) == Innermost(toks, q + 1, n)
  {
    hide Nested, Inside;
    if n > 0 {
      AroundSame(js, toks, p, q, n - 1);
      InnermostKeeps(js, toks, p, q, n - 1);
    }
  }

  /** Behind an opening bracket the container that begins there is the last one begun, and the innermost. */
  lemma {:induction false} OpensBoth(js: string, toks: seq<Token>, p: nat, q: nat)
    requires Nested(js, toks, p) && q < p <= |js| && Starts(toks, q)
    ensures LastStarted(toks, q + 1, |toks|) == Innermost(toks, q + 1, |toks|)
  {
    var k :| 0 <= k < |toks| && Container(toks[k]) && toks[k].start == q;
    assert Placed(js, toks[k], p);
    forall j | k < j < |toks|
      ensures toks[j].start >= q + 1
    {
      assert Apart(toks[k], toks[j]);
    }
    var a, b := LastStarted(toks, q + 1, |toks|), Innermost(toks, q + 1, |toks|);
    assert Around(toks[k], q + 1);
  }

  /** In a container without keys, what holds is what is around. */
  lemma {:induction false} HolderIsAround(js: string, toks: seq<Token>, p: nat, i: nat, q: nat)
    requires Nested(js, toks, p) && Bracketed(js, toks, p) && i < |toks| && Container(toks[i]) && q <= p
    requires NoKeys(js, toks, i, p)
    ensures Holder(js, toks, q) == i <==> Innermost(toks, q, |toks|) == i
    decreases q
  {
    hide Nested, Inside, LastStarted, Innermost, Starts;
    if q == 0 {
      NothingAround(js, toks, p, |toks|);
    } else {
      var r := q - 1;
      HolderIsAround(js, toks, p, i, r);
      if Inside(toks, r) || js[r] !in {'{', '[', '}', ']'} {
        InnermostKeeps(js, toks, p, r, |toks|);
      } else if js[r] == '{' || js[r] == '[' {
        OpensBoth(js, toks, p, r);
      }
    }
  }

  lemma {:induction false} NothingAround(js: string, toks: seq<Token>, p: nat, n: nat)
    requires Nested(js, toks, p) && n <= |toks|
    ensures Innermost(toks, 0, n) == -1
  {
    if n > 0 {
      assert Placed(js, toks[n - 1], p);
      NothingAround(js, toks, p, n - 1);
    }
  }

  /** How many of the first n tokens stand directly in container i. */
  ghost function Elements(toks: seq<Token>, i: int, n: nat): nat
    requires n <= |toks|
  {
    if n == 0 then 0
    else
      var f := First(toks[n - 1]);
      Elements(toks, i, n - 1) + if f >= 0 && Innermost(toks, f, |toks|) == i then 1 else 0
  }

  lemma {:induction false} ElementsAreChildren(js: string, toks: seq<Token>, p: nat, i: nat, n: nat)
    requires Nested(js, toks, p) && Bracketed(js, toks, p) && i < |toks| && Container(toks[i]) && n <= |toks|
    requires NoKeys(js, toks, i, p)
    ensures Children(js, toks, i, n) == Elements(toks, i, n)
  {
    hide Nested, Bracketed, Holder, NoKeys, Innermost;
    NestedBegun(js, toks, p);
    if n > 0 {
      ElementsAreChildren(js, toks, p, i, n - 1);
      BracketedEnd(js, toks, p);
      HolderIsAround(js, toks, p, i, First(toks[n - 1]));
    }
  }

  lemma {:induction false} BracketedEnd(js: string, toks: seq<Token>, p: nat)
    requires Bracketed(js, toks, p)
    ensures p <= |js|
  {
  }

  /** After a run from the start, the size of a container without keys, an array in particular, is the
      number of tokens that stand directly in it. */
  lemma {:induction false} ArraySizes(js: string, n: nat, i: nat)
    ensures var st := Parsed(js, START, n).st;
            i < |st.toks| && Container(st.toks[i]) && NoKeys(js, st.toks, i, st.pos) ==>
              st.toks[i].size == Elements(st.toks, i, |st.toks|)
  {
    hide Nested, Bracketed, NoKeys, Holder, Innermost, Parsed;
    StartExact(js);
    StartNests(js);
    assert Bracketed(js, [], 0) by { NothingBracketed(js); }
    SizesCount(js, START, n);
    BracketsKnown(js, START, n);
    var st := Parsed(js, START, n).st;
    if i < |st.toks| && Container(st.toks[i]) && NoKeys(js, st.toks, i, st.pos) {
      ElementsAreChildren(js, st.toks, st.pos, i, |st.toks|);
    }
  }

  lemma {:induction false} NothingBracketed(js: string)
    ensures Bracketed(js, [], 0)
  {
  }

  lemma {:induction false} RunIsExact(js: string, n: nat)
    ensures Exact(js, Parsed(js, START, n).st)
  {
    hide Exact, Parsed;
    StartExact(js);
    SizesCount(js, START, n);
  }

  /** An object with a key and a value: both containers and keys count what they hold. */
  lemma {:induction false} OnePair()
    ensures Parsed("{\"a\":1}", START, 3)
         == Run(3, State(7, -1, [Token(OBJECT, 0, 7, 1), Token(STRING, 2, 3, 1), Token(PRIMITIVE, 5, 6, 0)]))
  {
    var js := "{\"a\":1}";
    var o, k, v := Token(OBJECT, 0, -1, 0), Token(STRING, 2, 3, 0), Token(PRIMITIVE, 5, 6, 0);
    var s1 := State(1, 0, [o]);
    var s2 := State(4, 0, [o.(size := 1), k]);
    var s3 := State(5, 1, [o.(size := 1), k]);
    var s4 := State(6, 1, [o.(size := 1), k.(size := 1), v]);
    var s5 := State(7, -1, [o.(size := 1, end := 7), k.(size := 1), v]);
    assert Turn(js, START, 3) == Go(s1);
    assert StringEnd(js, 3) == Found(3) && StringEnd(js, 2) == Found(3);
    assert Turn(js, s1, 3) == Go(s2);
    assert Turn(js, s2, 3) == Go(s3);
    assert PrimitiveEnd(js, 6) == Found(6) && PrimitiveEnd(js, 5) == Found(6);
    assert Turn(js, s3, 3) == Go(s4);
    assert LastOpen(s4.toks, 1) == 0 && LastOpen(s4.toks, 2) == 0 && LastOpen(s4.toks, 3) == 0;
    assert LastOpen(s5.toks, 0) == -1;
    assert Turn(js, s4, 3) == Go(s5);
    assert LastOpen(s5.toks, 1) == -1 && LastOpen(s5.toks, 2) == -1 && LastOpen(s5.toks, 3) == -1;
    assert Parsed(js, s5, 3) == Run(3, s5);
    assert Parsed(js, s4, 3) == Run(3, s5);
    assert Parsed(js, s3, 3) == Run(3, s5);
    assert Parsed(js, s2, 3) == Run(3, s5);
    assert Parsed(js, s1, 3) == Run(3, s5);
  }

  // ---- lexemes ----

  /** A character of a primitive: one that can be printed, and no separator. */
  predicate Plain(c: char) {
    33 <= c as int <= 126 && c != ':' && c != ',' && c != ']' && c != '}'
  }

  /** A primitive goes on as far as there are plain characters, and then there is a separator or the end of
      the text; any other character is an error. */
  lemma {:induction false} PrimitiveRange(js: string, p: nat)
    requires p <= |js|
    ensures var e := PrimitiveEnd(js, p);
            if e.Found? then
              && p <= e.p <= |js| && (forall q :: p <= q < e.p ==> Plain(js[q]))
              && (e.p == |js| || js[e.p] in {'\0', '\t', '\r', '\n', ' ', ':', ',', ']', '}'})
            else BadText(js, p)
    decreases |js| - p
  {
    if !Over(js, p) && !Stops(js[p]) {
      if Printable(js[p]) {
        PrimitiveRange(js, p + 1);
        if PrimitiveEnd(js, p + 1).Bad? {
          var q :| p + 1 <= q < |js| && Odd(js[q]) && forall r :: p + 1 <= r < q ==> Plain(js[r]);
          assert p <= q < |js| && Odd(js[q]) && forall r :: p <= r < q ==> Plain(js[r]);
        }
      } else {
        assert Odd(js[p]);
      }
    }
  }

  /** No character of a text: a control character that does not separate, or one beyond ASCII. */
  predicate Odd(c: char) {
    !Plain(c) && c !in {'\0', '\t', '\r', '\n', ' ', ':', ',', ']', '}'}
  }

  ghost predicate BadText(js: string, p: nat) {
    exists q :: p <= q < |js| && Odd(js[q]) && forall r :: p <= r < q ==> Plain(js[r])
  }

  /** An escaped quote does not end a string, an unknown escape or a digit that is none is an error, and so
      is the end of the text. */
  lemma {:induction false} Escapes()
    ensures StringEnd("a\\\"b\"", 0) == Found(4) && StringEnd("\\u00e9\"", 0) == Found(6)
    ensures StringEnd("\\x\"", 0) == Bad(INVAL) && StringEnd("\\u0g\"", 0) == Bad(INVAL)
    ensures StringEnd("a\\\"", 0) == Bad(PART)
  {
    EscapedQuote();
    EscapedDigits();
    NoDigit();
  }

  lemma {:induction false} EscapedQuote()
    ensures StringEnd("a\\\"b\"", 0) == Found(4) && StringEnd("a\\\"", 0) == Bad(PART)
  {
    var js := "a\\\"b\"";
    assert StringEnd(js, 3) == StringEnd(js, 4) == Found(4);
    assert StringEnd(js, 1) == StringEnd(js, 3);
    var part := "a\\\"";
    assert StringEnd(part, 3) == Bad(PART);
    assert StringEnd(part, 1) == StringEnd(part, 3);
  }

  lemma {:induction false} EscapedDigits()
    ensures StringEnd("\\u00e9\"", 0) == Found(6)
  {
    var js := "\\u00e9\"";
    assert HexEnd(js, 6, 0) == Found(6);
    assert HexEnd(js, 5, 1) == Found(6);
    assert HexEnd(js, 4, 2) == Found(6);
    assert HexEnd(js, 3, 3) == Found(6);
    assert HexEnd(js, 2, 4) == Found(6);
  }

  lemma {:induction false} NoDigit()
    ensures StringEnd("\\x\"", 0) == Bad(INVAL) && StringEnd("\\u0g\"", 0) == Bad(INVAL)
  {
    var js := "\\u0g\"";
    assert HexEnd(js, 3, 3) == Bad(INVAL);
    assert HexEnd(js, 2, 4) == Bad(INVAL);
  }
}
