/** jsmn (jsmn.h), in its default build: a JSON text is split into tokens, in one run or in
    several with larger and larger arrays, and the ranges of the tokens nest as the brackets do. */
module Jsmn {
  datatype Type = OBJECT | ARRAY | STRING | PRIMITIVE

  /** A piece of the text; end is -1 for a container that is still open. */
  datatype Token = Token(typ: Type, start: int, end: int, size: nat)

  const NOMEM: int := -1
  const INVAL: int := -2
  const PART: int := -3

  datatype Scan = Found(p: nat) | Bad(err: int)

  // ---- lexemes ----

  /** The text ends at its length, or before that at a zero character. */
  predicate Over(js: string, p: nat) {
    p >= |js| || js[p] == '\0'
  }

  predicate Stops(c: char) {
    c in {':', '\t', '\r', '\n', ' ', ',', ']', '}'}
  }

  predicate Printable(c: char) {
    32 <= c as int < 127
  }

  predicate Hex(c: char) {
    '0' <= c <= '9' || 'A' <= c <= 'F' || 'a' <= c <= 'f'
  }

  /** The end of a primitive. */
  function PrimitiveEnd(js: string, p: nat): (r: Scan)
    ensures if r.Found? then p <= r.p && (p <= |js| ==> r.p <= |js|) else r.err == INVAL
    decreases |js| - p
  {
    if Over(js, p) || Stops(js[p]) then Found(p)
    else if !Printable(js[p]) then Bad(INVAL)
    else PrimitiveEnd(js, p + 1)
  }

  /** Up to n hexadecimal digits. */
  function HexEnd(js: string, p: nat, n: nat): (r: Scan)
    ensures if r.Found? then p <= r.p && (p <= |js| ==> r.p <= |js|) else r.err == INVAL
    decreases n
  {
    if n == 0 || Over(js, p) then Found(p)
    else if !Hex(js[p]) then Bad(INVAL)
    else HexEnd(js, p + 1, n - 1)
  }

  /** The closing quote of a string. */
  function StringEnd(js: string, p: nat): (r: Scan)
    ensures if r.Found? then p <= r.p < |js| else r.err == INVAL || r.err == PART
    decreases |js| - p
  {
    if Over(js, p) then Bad(PART)
    else if js[p] == '"' then Found(p)
    else if js[p] == '\\' && p + 1 < |js| then
      var e := js[p + 1];
      if e in {'"', '/', '\\', 'b', 'f', 'r', 'n', 't'} then StringEnd(js, p + 2)
      else if e == 'u' then
        var h := HexEnd(js, p + 2, 4);
        if h.Found? then StringEnd(js, h.p) else h
      else Bad(INVAL)
    else StringEnd(js, p + 1)
  }

  // ---- one turn of the parser ----

  /** Where the parser is, the token that holds what comes next, and the tokens so far. */
  datatype State = State(pos: nat, toksuper: int, toks: seq<Token>)

  datatype Outcome = Go(st: State) | Stop(err: int)

  predicate Open(t: Token) {
    t.start != -1 && t.end == -1
  }

  /** The last of the first n tokens that is open, or -1. */
  function LastOpen(toks: seq<Token>, n: nat): (i: int)
    requires n <= |toks|
    ensures -1 <= i < n && (i >= 0 ==> Open(toks[i])) && forall j :: i < j < n ==> !Open(toks[j])
  {
    if n == 0 then -1 else if Open(toks[n - 1]) then n - 1 else LastOpen(toks, n - 1)
  }

  predicate Sane(st: State) {
    -1 <= st.toksuper < |st.toks|
  }

  /** The holder of a new token has one more. */
  function Held(st: State): (toks: seq<Token>)
    requires Sane(st)
    ensures |toks| == |st.toks|
  {
    if st.toksuper == -1 then st.toks
    else st.toks[st.toksuper := st.toks[st.toksuper].(size := st.toks[st.toksuper].size + 1)]
  }

  function TypeOf(c: char): Type {
    if c == '{' || c == '}' then OBJECT else ARRAY
  }

  /** An opening bracket. */
  function OpenTurn(js: string, st: State, n: nat): (o: Outcome)
    requires Sane(st) && st.pos < |js|
    ensures o.Go? ==> Sane(o.st)
  {
    if |st.toks| >= n then Stop(NOMEM)
    else Go(State(st.pos + 1, |st.toks|, Held(st) + [Token(TypeOf(js[st.pos]), st.pos, -1, 0)]))
  }

  /** A closing bracket: it closes the last open token, and what is open before that holds what
      comes next. */
  function CloseTurn(js: string, st: State): (o: Outcome)
    requires Sane(st) && st.pos < |js|
    ensures o.Go? ==> Sane(o.st)
  {
    var i := LastOpen(st.toks, |st.toks|);
    if i == -1 || st.toks[i].typ != TypeOf(js[st.pos]) then Stop(INVAL)
    else
      var toks := st.toks[i := st.toks[i].(end := st.pos + 1)];
      Go(State(st.pos + 1, LastOpen(toks, i), toks))
  }

  /** A string or a primitive, whose range is from start to end, and which is read up to next. */
  function LeafTurn(st: State, typ: Type, start: nat, end: nat, next: nat, n: nat): (o: Outcome)
    requires Sane(st)
    ensures o.Go? ==> Sane(o.st)
  {
    if |st.toks| >= n then Stop(NOMEM)
    else Go(State(next, st.toksuper, Held(st) + [Token(typ, start, end, 0)]))
  }

  /** A comma: after a value, the container holds what comes next. */
  function CommaTurn(st: State): (o: Outcome)
    requires Sane(st)
    ensures o.Go? && Sane(o.st)
  {
    var i := LastOpen(st.toks, |st.toks|);
    if st.toksuper != -1 && st.toks[st.toksuper].typ != ARRAY && st.toks[st.toksuper].typ != OBJECT && i >= 0 then
      Go(State(st.pos + 1, i, st.toks))
    else Go(st.(pos := st.pos + 1))
  }

  /** One time through the loop of jsmn_parse, with room for n tokens. */
  function Turn(js: string, st: State, n: nat): (o: Outcome)
    requires Sane(st) && !Over(js, st.pos)
    ensures if o.Go? then Sane(o.st) && st.pos < o.st.pos <= |js| else o.err < 0
  {
    var c := js[st.pos];
    if c == '{' || c == '[' then OpenTurn(js, st, n)
    else if c == '}' || c == ']' then CloseTurn(js, st)
    else if c == '"' then
      var e := StringEnd(js, st.pos + 1);
      if e.Bad? then Stop(e.err) else LeafTurn(st, STRING, st.pos + 1, e.p, e.p + 1, n)
    else if c == '\t' || c == '\r' || c == '\n' || c == ' ' then Go(st.(pos := st.pos + 1))
    else if c == ':' then Go(State(st.pos + 1, |st.toks| - 1, st.toks))
    else if c == ',' then CommaTurn(st)
    else
      var e := PrimitiveEnd(js, st.pos);
      if e.Bad? then Stop(e.err) else LeafTurn(st, PRIMITIVE, st.pos, e.p, e.p, n)
  }

  /** How a run ends: all of the text, or an error, and where the parser is then. */
  datatype Run = Run(ret: int, st: State)

  /** jsmn_parse with room for n tokens. */
  function Parsed(js: string, st: State, n: nat): (r: Run)
    requires Sane(st)
    ensures Sane(r.st) && (r.ret >= 0 ==> r.ret == |r.st.toks|)
    decreases |js| - st.pos
  {
    if Over(js, st.pos) then
      Run(if LastOpen(st.toks, |st.toks|) != -1 then PART else |st.toks|, st)
    else
      var o := Turn(js, st, n);
      if o.Go? then Parsed(js, o.st, n) else Run(o.err, st)
  }

  const START: State := State(0, -1, [])

  // ---- the code ----

  class Parser {
    var pos: nat
    var toknext: nat
    var toksuper: int

    /** jsmn_init */
    constructor ()
      ensures pos == 0 && toknext == 0 && toksuper == -1
    {
      pos, toknext, toksuper := 0, 0, -1;
    }

    /** The parser and its array as a state. */
    ghost function Now(tokens: array<Token>): State
      reads this, tokens
      requires toknext <= tokens.Length
    {
      State(pos, toksuper, tokens[..toknext])
    }

    ghost predicate Fit(tokens: array<Token>)
      reads this
    {
      toknext <= tokens.Length && -1 <= toksuper < toknext
    }

    /** jsmn_parse_primitive, up to the token. */
    method ScanPrimitive(js: string) returns (e: Scan)
      requires pos < |js|
      modifies `pos
      ensures e == PrimitiveEnd(js, old(pos)) && pos == if e.Found? then e.p else old(pos)
    {
      var start := pos;
      while pos < |js| && js[pos] != '\0'
        invariant start <= pos <= |js| && PrimitiveEnd(js, start) == PrimitiveEnd(js, pos)
      {
        if Stops(js[pos]) { break; }
        if !Printable(js[pos]) {
          pos := start;
          return Bad(INVAL);
        }
        pos := pos + 1;
      }
      e := Found(pos);
    }

    /** Up to four hexadecimal digits. */
    method ScanHex(js: string) returns (ok: bool)
      modifies `pos
      ensures pos >= old(pos) && (if ok then HexEnd(js, old(pos), 4) == Found(pos)
          else HexEnd(js, old(pos), 4) == Bad(INVAL))
    {
      ghost var p := pos;
      var i := 0;
      while i < 4 && pos < |js| && js[pos] != '\0'
        invariant i <= 4 && pos == p + i && HexEnd(js, p, 4) == HexEnd(js, pos, 4 - i)
      {
        if !Hex(js[pos]) { return false; }
        pos := pos + 1;
        i := i + 1;
      }
      ok := true;
    }

    /** jsmn_parse_string, up to the token. */
    method ScanString(js: string) returns (e: Scan)
      requires pos < |js|
      modifies `pos
      ensures e == StringEnd(js, old(pos) + 1) && pos == if e.Found? then e.p else old(pos)
    {
      hide HexEnd;
      var start := pos;
      pos := pos + 1;
      while pos < |js| && js[pos] != '\0'
        invariant start < pos && StringEnd(js, start + 1) == StringEnd(js, pos)
        decreases |js| - pos
      {
        var c := js[pos];
        if c == '"' { return Found(pos); }
        if c == '\\' && pos + 1 < |js| {
          pos := pos + 1;
          if js[pos] in {'"', '/', '\\', 'b', 'f', 'r', 'n', 't'} {
          } else if js[pos] == 'u' {
            pos := pos + 1;
            var ok := ScanHex(js);
            if !ok {
              pos := start;
              return Bad(INVAL);
            }
            pos := pos - 1;
          } else {
            pos := start;
            return Bad(INVAL);
          }
        }
        pos := pos + 1;
      }
      pos := start;
      e := Bad(PART);
    }

    /** jsmn_alloc_token and jsmn_fill_token, and one more in the token that holds it. */
    method Place(tokens: array<Token>, typ: Type, start: int, end: int) returns (ok: bool)
      requires Fit(tokens)
      modifies `toknext, tokens
      ensures Fit(tokens) && ok == (old(toknext) < tokens.Length)
      ensures tokens[..toknext] == if ok then old(Held(Now(tokens))) + [Token(typ, start, end, 0)]
          else old(tokens[..toknext])
      ensures forall k :: toknext <= k < tokens.Length ==> tokens[k] == old(tokens[k])
    {
      if toknext >= tokens.Length { return false; }
      tokens[toknext] := Token(typ, start, end, 0);
      toknext := toknext + 1;
      if toksuper != -1 {
        tokens[toksuper] := tokens[toksuper].(size := tokens[toksuper].size + 1);
      }
      ok := true;
    }

    /** The last open token below n, searched from the end. */
    method FindOpen(tokens: array<Token>, n: nat) returns (i: int)
      requires n <= toknext <= tokens.Length
      ensures i == LastOpen(tokens[..toknext], n)
    {
      i := n - 1;
      while i >= 0
        invariant -1 <= i < n && LastOpen(tokens[..toknext], n) == LastOpen(tokens[..toknext], i + 1)
      {
        if tokens[i].start != -1 && tokens[i].end == -1 { return; }
        i := i - 1;
      }
    }

    /** A closing bracket. */
    method Close(js: string, tokens: array<Token>) returns (ok: bool)
      requires Fit(tokens) && pos < |js|
      modifies `toksuper, tokens
      ensures Fit(tokens) && ok == CloseTurn(js, old(Now(tokens))).Go?
      ensures if ok then State(pos + 1, toksuper, tokens[..toknext]) == CloseTurn(js, old(Now(tokens))).st
              else Now(tokens) == old(Now(tokens))
      ensures forall k :: toknext <= k < tokens.Length ==> tokens[k] == old(tokens[k])
    {
      var i := FindOpen(tokens, toknext);
      if i == -1 || tokens[i].typ != TypeOf(js[pos]) { return false; }
      tokens[i] := tokens[i].(end := pos + 1);
      toksuper := FindOpen(tokens, i);
      assert tokens[..toknext] == old(tokens[..toknext])[i := old(tokens[i]).(end := pos + 1)];
      ok := true;
    }

    /** A comma. */
    method Comma(tokens: array<Token>)
      requires Fit(tokens)
      modifies `toksuper
      ensures Fit(tokens) && State(pos + 1, toksuper, tokens[..toknext]) == CommaTurn(old(Now(tokens))).st
    {
      if toksuper != -1 && tokens[toksuper].typ != ARRAY && tokens[toksuper].typ != OBJECT {
        var i := FindOpen(tokens, toknext);
        if i >= 0 { toksuper := i; }
      }
    }

    /** One time through the loop, with an array. */
    method OneTurn(js: string, tokens: array<Token>) returns (ret: int)
      requires Fit(tokens) && !Over(js, pos)
      modifies this, tokens
      ensures Fit(tokens)
      ensures var o := Turn(js, old(Now(tokens)), tokens.Length);
              if o.Go? then ret == 0 && o.st == Now(tokens) else ret == o.err && Now(tokens) == old(Now(tokens))
      ensures forall k :: toknext <= k < tokens.Length ==> tokens[k] == old(tokens[k])
    {
      var c := js[pos];
      ret := 0;
      if c == '{' || c == '[' {
        var ok := Place(tokens, TypeOf(c), pos, -1);
        if !ok { return NOMEM; }
        toksuper := toknext - 1;
      } else if c == '}' || c == ']' {
        var ok := Close(js, tokens);
        if !ok { return INVAL; }
      } else if c == '"' {
        ret := Leaf(js, tokens, STRING);
        if ret < 0 { return; }
      } else if c == '\t' || c == '\r' || c == '\n' || c == ' ' {
      } else if c == ':' {
        toksuper := toknext - 1;
      } else if c == ',' {
        Comma(tokens);
      } else {
        ret := Leaf(js, tokens, PRIMITIVE);
        if ret < 0 { return; }
        pos := pos - 1;
      }
      pos := pos + 1;
    }

    /** A string or a primitive, from its first character on. The text is read before room for
        the token is looked for; without room nothing has changed. */
    method Leaf(js: string, tokens: array<Token>, typ: Type) returns (ret: int)
      requires Fit(tokens) && pos < |js| && (typ == STRING || typ == PRIMITIVE)
      modifies `pos, `toknext, tokens
      ensures Fit(tokens) && ret <= 0
      ensures var s, e := old(Now(tokens)), if typ == STRING then StringEnd(js, old(pos) + 1)
          else PrimitiveEnd(js, old(pos));
              if e.Bad? then ret == e.err && Now(tokens) == s
              else if |s.toks| >= tokens.Length then ret == NOMEM && Now(tokens) == s
              else ret == 0 && pos == e.p && toksuper == s.toksuper
                   && tokens[..toknext] == Held(s) + [Token(typ, if typ == STRING then s.pos + 1 else s.pos, e.p, 0)]
      ensures forall k :: toknext <= k < tokens.Length ==> tokens[k] == old(tokens[k])
    {
      var start := pos;
      var e;
      if typ == STRING {
        e := ScanString(js);
      } else {
        e := ScanPrimitive(js);
      }
      if e.Bad? { return e.err; }
      var ok := Place(tokens, typ, if typ == STRING then start + 1 else start, pos);
      if !ok {
        pos := start;
        return NOMEM;
      }
      ret := 0;
    }

    /** jsmn_parse: into an array of tokens, or only to count them. */
    method Parse(js: string, tokens: array?<Token>) returns (ret: int)
      requires tokens != null ==> Fit(tokens)
      modifies this, tokens
      ensures tokens != null ==> Fit(tokens)
      ensures tokens != null ==> Run(ret, Now(tokens)) == Parsed(js, old(Now(tokens)), tokens.Length)
      ensures tokens == null ==> ret == Counted(js, old(pos), old(toknext))
    {
      if tokens == null {
        ret := Count(js);
        return;
      }
      while pos < |js| && js[pos] != '\0'
        invariant Fit(tokens) && Parsed(js, old(Now(tokens)), tokens.Length) == Parsed(js, Now(tokens), tokens.Length)
        decreases |js| - pos
      {
        ret := OneTurn(js, tokens);
        if ret < 0 { return; }
      }
      var i := FindOpen(tokens, toknext);
      ret := if i >= 0 then PART else toknext;
    }

    /** The same loop without an array: only lexemes are counted. */
    method Count(js: string) returns (ret: int)
      modifies this
      ensures ret == Counted(js, old(pos), old(toknext))
    {
      var count := toknext;
      while pos < |js| && js[pos] != '\0'
        invariant Counted(js, old(pos), old(toknext)) == Counted(js, pos, count)
        decreases |js| - pos
      {
        var c := js[pos];
        if c == '{' || c == '[' {
          count := count + 1;
        } else if c == '"' {
          var e := ScanString(js);
          if e.Bad? { return e.err; }
          count := count + 1;
        } else if c in {'}', ']', '\t', '\r', '\n', ' ', ',', ':'} {
          if c == ':' { toksuper := toknext - 1; }
        } else {
          var e := ScanPrimitive(js);
          if e.Bad? { return e.err; }
          pos := pos - 1;
          count := count + 1;
        }
        pos := pos + 1;
      }
      ret := count;
    }
  }

  /** jsmn_parse without an array. */
  function Counted(js: string, p: nat, count: nat): int
    decreases |js| - p
  {
    if Over(js, p) then count
    else
      var c := js[p];
      if c == '{' || c == '[' then Counted(js, p + 1, count + 1)
      else if c == '"' then
        var e := StringEnd(js, p + 1);
        if e.Bad? then e.err else Counted(js, e.p + 1, count + 1)
      else if c in {'}', ']', '\t', '\r', '\n', ' ', ',', ':'} then Counted(js, p + 1, count)
      else
        var e := PrimitiveEnd(js, p);
        if e.Bad? then e.err else Counted(js, if e.p > p then e.p else p + 1, count + 1)
  }

  // ---- in one run or in several ----

  lemma {:induction false} TurnMore(js: string, st: State, m: nat, n: nat)
    requires Sane(st) && !Over(js, st.pos) && m <= n
    ensures Turn(js, st, m) != Stop(NOMEM) ==> Turn(js, st, n) == Turn(js, st, m)
  {
  }

  /** A run that stopped for want of tokens, and goes on with a larger array, ends as a run that
      had the larger array from the start. */
  lemma {:induction false} Resume(js: string, st: State, m: nat, n: nat)
    requires Sane(st) && m <= n && Parsed(js, st, m).ret == NOMEM
    ensures Parsed(js, Parsed(js, st, m).st, n) == Parsed(js, st, n)
    decreases |js| - st.pos
  {
    hide Turn;
    if !Over(js, st.pos) {
      TurnMore(js, st, m, n);
      var o := Turn(js, st, m);
      if o.Go? { Resume(js, o.st, m, n); }
    }
  }

  /** A larger array changes nothing for a run that did not lack tokens. */
  lemma {:induction false} LargerIsSame(js: string, st: State, m: nat, n: nat)
    requires Sane(st) && m <= n && Parsed(js, st, m).ret != NOMEM
    ensures Parsed(js, st, n) == Parsed(js, st, m)
    decreases |js| - st.pos
  {
    hide Turn;
    if !Over(js, st.pos) {
      TurnMore(js, st, m, n);
      var o := Turn(js, st, m);
      if o.Go? { LargerIsSame(js, o.st, m, n); }
    }
  }

  // ---- brackets ----

  /** The types of the open tokens. */
  function OpenTypes(toks: seq<Token>): seq<Type> {
    if toks == [] then []
    else
      var t := toks[|toks| - 1];
      OpenTypes(toks[..|toks| - 1]) + if Open(t) then [t.typ] else []
  }

  /** From p on, the brackets close those on the stack and each other, and nothing is left. */
  predicate Balanced(js: string, p: nat, stack: seq<Type>)
    decreases |js| - p
  {
    if Over(js, p) then stack == []
    else
      var c := js[p];
      if c == '{' || c == '[' then Balanced(js, p + 1, stack + [TypeOf(c)])
      else if c == '}' || c == ']' then
        stack != [] && stack[|stack| - 1] == TypeOf(c) && Balanced(js, p + 1, stack[..|stack| - 1])
      else if c == '"' then
        var e := StringEnd(js, p + 1);
        e.Found? && Balanced(js, e.p + 1, stack)
      else if c in {'\t', '\r', '\n', ' ', ',', ':'} then Balanced(js, p + 1, stack)
      else
        var e := PrimitiveEnd(js, p);
        e.Found? && e.p > p && Balanced(js, e.p, stack)
  }

  lemma {:induction false} OpenLast(toks: seq<Token>, n: nat)
    requires n <= |toks|
    ensures var i := LastOpen(toks, n);
            if i == -1 then OpenTypes(toks[..n]) == []
            else OpenTypes(toks[..n]) == OpenTypes(toks[..i]) + [toks[i].typ]
    decreases n
  {
    if n > 0 {
      assert toks[..n][..n - 1] == toks[..n - 1];
      if !Open(toks[n - 1]) { OpenLast(toks, n - 1); }
    }
  }

  /** Only what is open, and of which type, matters. */
  lemma {:induction false} OpenSame(toks: seq<Token>, other: seq<Token>)
    requires |toks| == |other|
    requires forall i :: 0 <= i < |toks| ==> toks[i].typ == other[i].typ && Open(toks[i]) == Open(other[i])
    ensures OpenTypes(toks) == OpenTypes(other)
    decreases |toks|
  {
    if toks != [] { OpenSame(toks[..|toks| - 1], other[..|other| - 1]); }
  }

  lemma {:induction false} NoneOpen(toks: seq<Token>, n: nat)
    requires n <= |toks| && forall j :: n <= j < |toks| ==> !Open(toks[j])
    ensures OpenTypes(toks) == OpenTypes(toks[..n])
    decreases |toks|
  {
    if n < |toks| {
      var m := |toks| - 1;
      NoneOpen(toks[..m], n);
      assert toks[..m][..n] == toks[..n];
    } else {
      assert toks[..n] == toks;
    }
  }

  lemma {:induction false} OpenMore(toks: seq<Token>, t: Token)
    ensures OpenTypes(toks + [t]) == OpenTypes(toks) + if Open(t) then [t.typ] else []
  {
    assert (toks + [t])[..|toks|] == toks;
  }

  lemma {:induction false} CloseTypes(toks: seq<Token>, i: nat, end: int)
    requires i < |toks| && i == LastOpen(toks, |toks|) && end != -1
    ensures OpenTypes(toks) == OpenTypes(toks[i := toks[i].(end := end)]) + [toks[i].typ]
  {
    var u := toks[i := toks[i].(end := end)];
    OpenLast(toks, |toks|);
    assert toks[..|toks|] == toks && u[..i] == toks[..i];
    NoneOpen(u, i);
  }

  /** A parse is successful exactly if the brackets match, no lexeme is wrong, and the array has
      room for as many tokens as are counted without one; and then it gives their number. */
  lemma {:induction false} ParseSucceeds(js: string, st: State, n: nat)
    requires Sane(st) && |st.toks| <= n
    ensures var c := Counted(js, st.pos, |st.toks|);
            && (Parsed(js, st, n).ret >= 0 <==> Balanced(js, st.pos, OpenTypes(st.toks)) && 0 <= c <= n)
            && (Parsed(js, st, n).ret >= 0 ==> Parsed(js, st, n).ret == c)
    decreases |js| - st.pos
  {
    hide LastOpen, OpenTypes, Turn, Held;
    var stack, toks := OpenTypes(st.toks), st.toks;
    OpenLast(toks, |toks|);
    assert toks[..|toks|] == toks;
    if !Over(js, st.pos) {
      var o := Turn(js, st, n);
      CountGrows(js, st.pos, |toks|);
      TurnCases(js, st, n);
      if o.Go? { ParseSucceeds(js, o.st, n); }
    }
  }

  lemma {:induction false} CountGrows(js: string, p: nat, count: nat)
    ensures Counted(js, p, count) >= 0 ==> Counted(js, p, count) >= count
    decreases |js| - p
  {
    if !Over(js, p) {
      CountGrows(js, p + 1, count);
      CountGrows(js, p + 1, count + 1);
      if js[p] == '"' {
        var e := StringEnd(js, p + 1);
        if e.Found? { CountGrows(js, e.p + 1, count + 1); }
      } else {
        var e := PrimitiveEnd(js, p);
        if e.Found? && e.p > p { CountGrows(js, e.p, count + 1); }
      }
    }
  }

  /** A turn goes on exactly if the brackets and the count can. */
  lemma {:induction false} TurnCases(js: string, st: State, n: nat)
    requires Sane(st) && !Over(js, st.pos) && |st.toks| <= n
    ensures var o, c, stack := Turn(js, st, n), Counted(js, st.pos, |st.toks|), OpenTypes(st.toks);
            if o.Go? then
              && |o.st.toks| <= n && c == Counted(js, o.st.pos, |o.st.toks|)
              && Balanced(js, st.pos, stack) == Balanced(js, o.st.pos, OpenTypes(o.st.toks))
            else !(Balanced(js, st.pos, stack) && 0 <= c <= n)
  {
    hide OpenTypes;
    var toks, c := st.toks, js[st.pos];
    HeldTypes(st);
    assert OpenTypes(toks) + [] == OpenTypes(toks);
    if c == '{' || c == '[' {
      OpenMore(Held(st), Token(TypeOf(c), st.pos, -1, 0));
      CountGrows(js, st.pos + 1, |toks| + 1);
    } else if c == '}' || c == ']' {
      OpenLast(toks, |toks|);
      assert toks[..|toks|] == toks;
      var i := LastOpen(toks, |toks|);
      if i >= 0 {
        CloseTypes(toks, i, st.pos + 1);
        var u := OpenTypes(toks[i := toks[i].(end := st.pos + 1)]);
        assert (u + [toks[i].typ])[..|u|] == u;
      }
    } else if c == '"' {
      var e := StringEnd(js, st.pos + 1);
      if e.Found? {
        var t := Token(STRING, st.pos + 1, e.p, 0);
        OpenMore(Held(st), t);
        assert !Open(t);
        CountGrows(js, e.p + 1, |toks| + 1);
      }
    } else if c !in {'\t', '\r', '\n', ' ', ',', ':'} {
      var e := PrimitiveEnd(js, st.pos);
      PrimitiveGoes(js, st.pos);
      if e.Found? {
        var t := Token(PRIMITIVE, st.pos, e.p, 0);
        OpenMore(Held(st), t);
        assert !Open(t);
        CountGrows(js, e.p, |toks| + 1);
      }
    }
  }

  lemma {:induction false} PrimitiveGoes(js: string, p: nat)
    requires !Over(js, p) && !Stops(js[p])
    ensures PrimitiveEnd(js, p).Found? ==> PrimitiveEnd(js, p).p > p
  {
  }

  lemma {:induction false} HeldTypes(st: State)
    requires Sane(st)
    ensures OpenTypes(Held(st)) == OpenTypes(st.toks)
  {
    OpenSame(Held(st), st.toks);
  }

  /** Counting alone does not see a bracket without a match. */
  lemma {:induction false} CountIsBlind(n: nat)
    ensures Counted("]", 0, 0) == 0 && Parsed("]", START, n).ret == INVAL && !Balanced("]", 0, [])
  {
    assert Over("]", 1);
  }

  // ---- ranges ----

  /** A token is where its text is: a container between its brackets, a string between quotes. */
  predicate Placed(js: string, t: Token, pos: nat) {
    && 0 <= t.start < |js| && t.start < pos
    && match t.typ
       case STRING => 1 <= t.start <= t.end < |js| && t.end < pos && js[t.start - 1] == '"' && js[t.end] == '"'
       case PRIMITIVE => t.start < t.end <= pos && t.end <= |js|
       case _ =>
         && (js[t.start] == '{' || js[t.start] == '[') && t.typ == TypeOf(js[t.start])
         && (t.end == -1 || (t.start + 1 < t.end <= pos && t.end <= |js| && (js[t.end - 1] == '}'
             || js[t.end - 1] == ']')
                             && t.typ == TypeOf(js[t.end - 1])))
  }

  /** A later token starts later; and one that starts before another is closed lies within it. */
  predicate Apart(t: Token, u: Token) {
    && t.start < u.start
    && (t.end != -1 ==> t.end <= u.start || ((t.typ == OBJECT || t.typ == ARRAY) && u.end != -1 && u.end < t.end))
  }

  /** All tokens are placed, and any two of them are one within the other or apart. */
  ghost predicate Nested(js: string, toks: seq<Token>, pos: nat) {
    && (forall i :: 0 <= i < |toks| ==> Placed(js, toks[i], pos))
    && (forall i, j :: 0 <= i < j < |toks| ==> Apart(toks[i], toks[j]))
  }

  /** The sizes do not matter for that. */
  lemma {:induction false} NestedHeld(js: string, st: State, pos: nat)
    requires Sane(st) && Nested(js, st.toks, pos)
    ensures Nested(js, Held(st), pos)
  {
    var h := Held(st);
    forall i | 0 <= i < |h|
      ensures Placed(js, h[i], pos)
    {
      assert Placed(js, st.toks[i], pos);
    }
    forall i, j | 0 <= i < j < |h|
      ensures Apart(h[i], h[j])
    {
      assert Apart(st.toks[i], st.toks[j]);
    }
  }

  lemma {:induction false} NestedLater(js: string, toks: seq<Token>, pos: nat, next: nat)
    requires Nested(js, toks, pos) && pos <= next
    ensures Nested(js, toks, next)
  {
    forall i | 0 <= i < |toks|
      ensures Placed(js, toks[i], next)
    {
      assert Placed(js, toks[i], pos);
    }
  }

  /** A new token is behind all that are closed. */
  lemma {:induction false} NestedMore(js: string, toks: seq<Token>, pos: nat, t: Token, next: nat)
    requires Nested(js, toks, pos) && pos <= t.start && Placed(js, t, next) && pos <= next
    ensures Nested(js, toks + [t], next)
  {
    NestedLater(js, toks, pos, next);
    var more := toks + [t];
    forall i, j | 0 <= i < j < |more|
      ensures Apart(more[i], more[j])
    {
      assert Placed(js, toks[i], pos);
      assert j < |toks| ==> Apart(toks[i], toks[j]);
    }
  }

  /** Closing the last open token leaves all later ones within it. */
  lemma {:induction false} NestedClose(js: string, toks: seq<Token>, pos: nat, i: nat)
    requires Nested(js, toks, pos) && i < |toks| && i == LastOpen(toks, |toks|) && pos < |js|
    requires (js[pos] == '}' || js[pos] == ']') && toks[i].typ == TypeOf(js[pos])
    ensures Nested(js, toks[i := toks[i].(end := pos + 1)], pos + 1)
  {
    NestedLater(js, toks, pos, pos + 1);
    assert Placed(js, toks[i], pos);
    var u := toks[i := toks[i].(end := pos + 1)];
    forall k | 0 <= k < |u|
      ensures Placed(js, u[k], pos + 1)
    {
      assert Placed(js, toks[k], pos + 1);
    }
    forall k, j | 0 <= k < j < |u|
      ensures Apart(u[k], u[j])
    {
      assert Apart(toks[k], toks[j]) && Placed(js, toks[j], pos);
    }
  }

  lemma {:induction false} NestedTurn(js: string, st: State, n: nat)
    requires Sane(st) && !Over(js, st.pos) && Nested(js, st.toks, st.pos)
    ensures var o := Turn(js, st, n); o.Go? ==> Nested(js, o.st.toks, o.st.pos)
  {
    hide Nested, LastOpen, Held;
    var c, p := js[st.pos], st.pos;
    NestedHeld(js, st, p);
    NestedLater(js, st.toks, p, p + 1);
    if c == '{' || c == '[' {
      NestedMore(js, Held(st), p, Token(TypeOf(c), p, -1, 0), p + 1);
    } else if c == '}' || c == ']' {
      var i := LastOpen(st.toks, |st.toks|);
      if i >= 0 && st.toks[i].typ == TypeOf(c) { NestedClose(js, st.toks, p, i); }
    } else if c == '"' {
      var e := StringEnd(js, p + 1);
      if e.Found? {
        QuoteAt(js, p + 1);
        NestedMore(js, Held(st), p, Token(STRING, p + 1, e.p, 0), e.p + 1);
      }
    } else if c !in {'\t', '\r', '\n', ' ', ',', ':'} {
      var e := PrimitiveEnd(js, p);
      PrimitiveGoes(js, p);
      if e.Found? { NestedMore(js, Held(st), p, Token(PRIMITIVE, p, e.p, 0), e.p); }
    }
  }

  lemma {:induction false} QuoteAt(js: string, p: nat)
    ensures var e := StringEnd(js, p); e.Found? ==> e.p < |js| && js[e.p] == '"'
    decreases |js| - p
  {
    if !Over(js, p) && js[p] != '"' {
      if js[p] == '\\' && p + 1 < |js| {
        var h := HexEnd(js, p + 2, 4);
        if h.Found? { QuoteAt(js, h.p); }
        QuoteAt(js, p + 2);
      } else {
        QuoteAt(js, p + 1);
      }
    }
  }

  /** Wherever a run stops, the tokens nest; and after a success each is closed. */
  lemma {:induction false} TokensNest(js: string, st: State, n: nat)
    requires Sane(st) && Nested(js, st.toks, st.pos)
    ensures var r := Parsed(js, st, n);
            Nested(js, r.st.toks, r.st.pos)
            && (r.ret >= 0 ==> forall i :: 0 <= i < |r.st.toks| ==> r.st.toks[i].end != -1)
    decreases |js| - st.pos
  {
    hide Nested, Turn;
    if Over(js, st.pos) {
      NoneLeft(js, st);
    } else {
      NestedTurn(js, st, n);
      var o := Turn(js, st, n);
      if o.Go? { TokensNest(js, o.st, n); }
    }
  }

  lemma {:induction false} NoneLeft(js: string, st: State)
    requires Sane(st) && Nested(js, st.toks, st.pos)
    ensures LastOpen(st.toks, |st.toks|) == -1 ==> forall i :: 0 <= i < |st.toks| ==> st.toks[i].end != -1
  {
    if LastOpen(st.toks, |st.toks|) == -1 {
      forall i | 0 <= i < |st.toks|
        ensures st.toks[i].end != -1
      {
        assert Placed(js, st.toks[i], st.pos) && !Open(st.toks[i]);
      }
    }
  }

  lemma {:induction false} StartNests(js: string)
    ensures Sane(START) && Nested(js, START.toks, START.pos) && OpenTypes(START.toks) == []
  {
  }
}
