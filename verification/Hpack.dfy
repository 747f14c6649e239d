/** The Huffman decoder of HPACK (section 5.2 of RFC 7541): the tree of the code, the automaton
    that mkhufftbl.py makes of it, which takes four bits at a time, and the decoder that runs the
    automaton (nghttp2_hd_huffman.c). The automaton gives what the tree gives bit by bit. */
module Hpack {
  import opened Bits

  const EOS: nat := 256
  const ACCEPTED: nat := 16384   // 1 << 14
  const SYM: nat := 32768        // 1 << 15

  datatype Code = Code(sym: nat, bits: seq<bool>)

  /** What a node of the tree stands for. */
  datatype Term = Inner | Symbol(sym: nat)

  datatype Tree = Nil | Node(term: Term, left: Tree, right: Tree)

  // ---- the tree ----

  /** _add */
  function Add(t: Tree, sym: nat, bits: seq<bool>): (r: Tree)
    ensures r.Node?
    decreases |bits|
  {
    var n := if t.Nil? then Node(Inner, Nil, Nil) else t;
    if bits == [] then n.(term := Symbol(sym))
    else if bits[0] then n.(right := Add(n.right, sym, bits[1..]))
    else n.(left := Add(n.left, sym, bits[1..]))
  }

  function Built(codes: seq<Code>): (t: Tree)
    ensures t.Node?
  {
    if codes == [] then Node(Inner, Nil, Nil)
    else
      var n := |codes| - 1;
      Add(Built(codes[..n]), codes[n].sym, codes[n].bits)
  }

  /** The node at the end of a path. */
  function At(t: Tree, p: seq<bool>): Tree
    decreases |p|
  {
    if p == [] || t.Nil? then t
    else At(if p[0] then t.right else t.left, p[1..])
  }

  predicate Has(codes: seq<Code>, sym: nat, p: seq<bool>) {
    exists i :: 0 <= i < |codes| && codes[i] == Code(sym, p)
  }

  /** p is the beginning of a code word. */
  predicate Begins(codes: seq<Code>, p: seq<bool>) {
    exists i :: 0 <= i < |codes| && p <= codes[i].bits
  }

  ghost predicate PrefixFree(codes: seq<Code>) {
    forall i, j :: 0 <= i < |codes| && 0 <= j < |codes| && i != j ==> !(codes[i].bits <= codes[j].bits)
  }

  /** What begins a code word, and is none, can go on in both ways. */
  ghost predicate Complete(codes: seq<Code>) {
    forall p, b: bool, i :: 0 <= i < |codes| && p < codes[i].bits ==> Begins(codes, p + [b])
  }

  lemma {:induction false} AddAt(t: Tree, sym: nat, bits: seq<bool>, p: seq<bool>)
    ensures At(Add(t, sym, bits), p).Node? <==> At(t, p).Node? || p <= bits
    ensures At(Add(t, sym, bits), p).Node? ==>
              At(Add(t, sym, bits), p).term
              == if p == bits then Symbol(sym) else if At(t, p).Node? then At(t, p).term else Inner
    decreases |p|
  {
    var n := if t.Nil? then Node(Inner, Nil, Nil) else t;
    if p != [] && bits != [] {
      var u := if p[0] then n.right else n.left;
      assert p == [p[0]] + p[1..] && bits == [bits[0]] + bits[1..];
      if p[0] == bits[0] {
        AddAt(u, sym, bits[1..], p[1..]);
        NilAt(p[1..]);
      } else {
        NilAt(p[1..]);
      }
    } else if p != [] {
      NilAt(p[1..]);
    }
  }

  lemma {:induction false} NilAt(p: seq<bool>)
    ensures At(Nil, p) == Nil
  {
  }

  /** The tree has the code words, and nothing but their beginnings. */
  lemma {:induction false} BuiltAt(codes: seq<Code>, p: seq<bool>)
    requires PrefixFree(codes)
    ensures At(Built(codes), p).Node? <==> p == [] || Begins(codes, p)
    ensures At(Built(codes), p).Node? ==>
              forall s :: At(Built(codes), p).term == Symbol(s) <==> Has(codes, s, p)
    decreases |codes|
  {
    if codes == [] {
      if p != [] { NilAt(p[1..]); }
    } else {
      var n := |codes| - 1;
      var front, c := codes[..n], codes[n];
      assert codes == front + [c];
      BuiltAt(front, p);
      AddAt(Built(front), c.sym, c.bits, p);
      BeginsMore(front, c, p);
      forall s
        ensures Has(codes, s, p) <==> Has(front, s, p) || c == Code(s, p)
      {
        HasMore(front, c, s, p);
      }
      if p == c.bits {
        forall s
          ensures !Has(front, s, p)
        {
          NotTwice(front, c, s);
        }
      }
    }
  }

  lemma {:induction false} BeginsMore(front: seq<Code>, c: Code, p: seq<bool>)
    ensures Begins(front + [c], p) <==> Begins(front, p) || p <= c.bits
  {
    var codes := front + [c];
    assert codes[|front|] == c;
    if i :| 0 <= i < |front| && p <= front[i].bits { assert codes[i] == front[i]; }
    if i :| 0 <= i < |codes| && p <= codes[i].bits { assert i < |front| ==> codes[i] == front[i]; }
  }

  lemma {:induction false} HasMore(front: seq<Code>, c: Code, s: nat, p: seq<bool>)
    ensures Has(front + [c], s, p) <==> Has(front, s, p) || c == Code(s, p)
  {
    var codes := front + [c];
    assert codes[|front|] == c;
    if i :| 0 <= i < |front| && front[i] == Code(s, p) { assert codes[i] == front[i]; }
    if i :| 0 <= i < |codes| && codes[i] == Code(s, p) { assert i < |front| ==> codes[i] == front[i]; }
  }

  lemma {:induction false} NotTwice(front: seq<Code>, c: Code, s: nat)
    requires PrefixFree(front + [c])
    ensures !Has(front, s, c.bits)
  {
    var codes := front + [c];
    forall i | 0 <= i < |front|
      ensures front[i] != Code(s, c.bits)
    {
      assert codes[i] == front[i] && codes[|front|] == c;
    }
  }

  /** Every node is a symbol without sons, or has two. */
  predicate Full(t: Tree) {
    t.Node? && if t.term.Symbol? then t.left.Nil? && t.right.Nil? else Full(t.left) && Full(t.right)
  }

  lemma {:induction false} AtStep(t: Tree, p: seq<bool>, b: bool)
    ensures At(t, p + [b]) == (var u := At(t, p); if u.Nil? then Nil else if b then u.right else u.left)
    decreases |p|
  {
    if p == [] {
      assert (p + [b])[1..] == [];
    } else if t.Node? {
      assert (p + [b])[1..] == p[1..] + [b];
      AtStep(if p[0] then t.right else t.left, p[1..], b);
    }
  }

  /** The tree of a complete prefix code is full. */
  lemma {:induction false} FullFrom(codes: seq<Code>, t: Tree, p: seq<bool>)
    requires PrefixFree(codes) && Complete(codes) && codes != [] && t == At(Built(codes), p) && t.Node?
    ensures Full(t)
    decreases t
  {
    hide Built, Complete, PrefixFree;
    BuiltAt(codes, p);
    BuiltAt(codes, p + [false]);
    BuiltAt(codes, p + [true]);
    AtStep(Built(codes), p, false);
    AtStep(Built(codes), p, true);
    if t.term.Symbol? {
      NothingBehind(codes, t.term.sym, p, false);
      NothingBehind(codes, t.term.sym, p, true);
    } else {
      GoesOn(codes, p, false);
      GoesOn(codes, p, true);
      FullFrom(codes, t.left, p + [false]);
      FullFrom(codes, t.right, p + [true]);
    }
  }

  lemma {:induction false} NothingBehind(codes: seq<Code>, s: nat, p: seq<bool>, b: bool)
    requires PrefixFree(codes) && Has(codes, s, p)
    ensures !Begins(codes, p + [b])
  {
    var i :| 0 <= i < |codes| && codes[i] == Code(s, p);
    forall j | 0 <= j < |codes|
      ensures !(p + [b] <= codes[j].bits)
    {
      Shorter(p, b, codes[j].bits);
      assert i != j ==> !(codes[i].bits <= codes[j].bits);
    }
  }

  lemma {:induction false} Shorter(p: seq<bool>, b: bool, w: seq<bool>)
    ensures p + [b] <= w ==> p <= w && |p| < |w|
  {
  }

  lemma {:induction false} GoesOn(codes: seq<Code>, p: seq<bool>, b: bool)
    requires Complete(codes) && codes != [] && (p == [] || Begins(codes, p))
    requires forall s :: !Has(codes, s, p)
    ensures Begins(codes, p + [b])
  {
    assert [] <= codes[0].bits;
    var i :| 0 <= i < |codes| && p <= codes[i].bits;
    if p == codes[i].bits { assert Has(codes, codes[i].sym, p); }
    assert p < codes[i].bits;
  }

  // ---- ids ----

  /** How many inner nodes there are. */
  function Inners(t: Tree): nat {
    if t.Nil? || t.term.Symbol? then 0 else 1 + Inners(t.left) + Inners(t.right)
  }

  function Symbols(t: Tree): nat {
    if t.Nil? then 0 else (if t.term.Symbol? then 1 else 0) + Symbols(t.left) + Symbols(t.right)
  }

  lemma {:induction false} OneMoreSymbol(t: Tree)
    requires Full(t)
    ensures Symbols(t) == Inners(t) + 1
  {
    if t.term.Inner? {
      OneMoreSymbol(t.left);
      OneMoreSymbol(t.right);
    }
  }

  lemma {:induction false} AddSymbols(t: Tree, sym: nat, bits: seq<bool>)
    requires var u := At(t, bits); u.Nil? || u.term.Inner?
    ensures Symbols(Add(t, sym, bits)) == Symbols(t) + 1
    decreases |bits|
  {
    if bits != [] {
      NilAt(bits[1..]);
      var n := if t.Nil? then Node(Inner, Nil, Nil) else t;
      AddSymbols(if bits[0] then n.right else n.left, sym, bits[1..]);
    }
  }

  lemma {:induction false} SymbolCount(codes: seq<Code>)
    requires PrefixFree(codes)
    ensures Symbols(Built(codes)) == |codes|
    decreases |codes|
  {
    if codes != [] {
      var n := |codes| - 1;
      var front, c := codes[..n], codes[n];
      assert codes == front + [c];
      SymbolCount(front);
      BuiltAt(front, c.bits);
      var u := At(Built(front), c.bits);
      if u.Node? && u.term.Symbol? { NotTwice(front, c, u.term.sym); }
      AddSymbols(Built(front), c.sym, c.bits);
    }
  }

  /** A path to an inner node. */
  predicate Place(t: Tree, p: seq<bool>) {
    var u := At(t, p);
    u.Node? && u.term.Inner?
  }

  /** _set_node_id: inner nodes are numbered in preorder. */
  function Id(t: Tree, p: seq<bool>): nat
    decreases |p|
  {
    if p == [] || t.Nil? then 0
    else if p[0] then 1 + Inners(t.left) + Id(t.right, p[1..])
    else 1 + Id(t.left, p[1..])
  }

  lemma {:induction false} IdRange(t: Tree, p: seq<bool>)
    requires Full(t) && Place(t, p)
    ensures Id(t, p) < Inners(t)
    decreases |p|
  {
    if p != [] {
      NilAt(p[1..]);
      IdRange(if p[0] then t.right else t.left, p[1..]);
    }
  }

  /** Up to seven ones are no more than padding. */
  predicate Padding(p: seq<bool>) {
    |p| <= 7 && forall i :: 0 <= i < |p| ==> p[i]
  }

  // ---- bit by bit ----

  /** Where the decoder is: on the path to an inner node, or stopped for good. */
  datatype Status = On(p: seq<bool>) | Dead

  datatype Walked = Walked(out: seq<nat>, st: Status)

  /** One bit. */
  function Step(t: Tree, st: Status, b: bool): Walked {
    match st
    case Dead => Walked([], Dead)
    case On(p) =>
      var u := At(t, p + [b]);
      if u.Nil? then Walked([], Dead)
      else
        match u.term
        case Inner => Walked([], On(p + [b]))
        case Symbol(s) => if s == EOS then Walked([], Dead) else Walked([s], On([]))
  }

  function Walk(t: Tree, st: Status, bits: seq<bool>): Walked
    decreases |bits|
  {
    if bits == [] then Walked([], st)
    else
      var one := Step(t, st, bits[0]);
      var rest := Walk(t, one.st, bits[1..]);
      Walked(one.out + rest.out, rest.st)
  }

  lemma {:induction false} WalkConcat(t: Tree, st: Status, x: seq<bool>, y: seq<bool>)
    ensures Walk(t, st, x + y) == (var w := Walk(t, st, x); var v := Walk(t, w.st, y); Walked(w.out + v.out, v.st))
    decreases |x|
  {
    hide Step;
    if x == [] {
      assert x + y == y;
    } else {
      assert (x + y)[1..] == x[1..] + y;
      var one := Step(t, st, x[0]);
      WalkConcat(t, one.st, x[1..], y);
    }
  }

  lemma {:induction false} WalkDead(t: Tree, bits: seq<bool>)
    ensures Walk(t, Dead, bits) == Walked([], Dead)
    decreases |bits|
  {
    if bits != [] { WalkDead(t, bits[1..]); }
  }

  // ---- what the walk means ----

  /** The bits of symbols one after the other. */
  function Encode(codes: seq<Code>, syms: seq<nat>): seq<bool>
    requires forall i :: 0 <= i < |syms| ==> syms[i] < |codes|
  {
    if syms == [] then [] else codes[syms[0]].bits + Encode(codes, syms[1..])
  }

  /** A code for the symbols 0..256 as that of RFC 7541: complete, with at least four bits for
      each, and with ones only for the end of the string. */
  ghost predicate Good(codes: seq<Code>) {
    && |codes| == 257 && PrefixFree(codes) && Complete(codes)
    && (forall i :: 0 <= i < |codes| ==> codes[i].sym == i && |codes[i].bits| >= 4)
    && |codes[EOS].bits| >= 8 && forall i :: 0 <= i < |codes[EOS].bits| ==> codes[EOS].bits[i]
  }

  lemma {:induction false} GoodTree(codes: seq<Code>)
    requires Good(codes)
    ensures Full(Built(codes)) && Inners(Built(codes)) == 256 && Place(Built(codes), [])
    ensures forall p :: Place(Built(codes), p) ==> forall s :: !Has(codes, s, p)
  {
    hide Built;
    FullFrom(codes, Built(codes), []);
    SymbolCount(codes);
    OneMoreSymbol(Built(codes));
    BuiltAt(codes, []);
    forall s
      ensures !Has(codes, s, [])
    {
      LongWords(codes, s, []);
    }
    forall p | Place(Built(codes), p)
      ensures forall s :: !Has(codes, s, p)
    {
      BuiltAt(codes, p);
    }
  }

  lemma {:induction false} LongWords(codes: seq<Code>, s: nat, p: seq<bool>)
    requires Good(codes)
    ensures Has(codes, s, p) ==> |p| >= 4 && s < 257 && codes[s].bits == p
  {
    if Has(codes, s, p) {
      var i :| 0 <= i < |codes| && codes[i] == Code(s, p);
      assert codes[i].sym == i;
    }
  }

  /** A code word from a point on its way. */
  lemma {:induction false} WalkCode(codes: seq<Code>, s: nat, k: nat)
    requires Good(codes) && s < 257 && k < |codes[s].bits|
    ensures var t, w := Built(codes), codes[s].bits;
            Walk(t, On(w[..k]), w[k..]) == if s == EOS then Walked([], Dead) else Walked([s], On([]))
    decreases |codes[s].bits| - k
  {
    hide Built, PrefixFree, Complete;
    var t, w := Built(codes), codes[s].bits;
    var q := w[..k + 1];
    assert w[..k] + [w[k]] == q && w[k..][1..] == w[k + 1..];
    BuiltAt(codes, q);
    assert q <= codes[s].bits;
    if k + 1 == |w| {
      assert q == w && w[k + 1..] == [];
      assert Has(codes, s, q);
    } else {
      NotAWord(codes, s, k + 1);
      WalkCode(codes, s, k + 1);
    }
  }

  lemma {:induction false} NotAWord(codes: seq<Code>, s: nat, k: nat)
    requires PrefixFree(codes) && s < |codes| && k < |codes[s].bits|
    ensures forall x :: !Has(codes, x, codes[s].bits[..k])
  {
    forall x
      ensures !Has(codes, x, codes[s].bits[..k])
    {
      OnlyWord(codes, x, codes[s].bits[..k], s);
    }
  }

  lemma {:induction false} OnlyWord(codes: seq<Code>, x: nat, p: seq<bool>, s: nat)
    requires PrefixFree(codes) && s < |codes| && p <= codes[s].bits
    ensures Has(codes, x, p) ==> p == codes[s].bits
  {
    if Has(codes, x, p) {
      var i :| 0 <= i < |codes| && codes[i] == Code(x, p);
      assert i == s;
    }
  }

  /** Decoding undoes encoding. */
  lemma {:induction false} WalkEncoded(codes: seq<Code>, syms: seq<nat>)
    requires Good(codes) && forall i :: 0 <= i < |syms| ==> syms[i] < EOS
    ensures Walk(Built(codes), On([]), Encode(codes, syms)) == Walked(syms, On([]))
    decreases |syms|
  {
    hide Built, Good, Walk;
    GoodSizes(codes);
    if syms == [] {
      WalkNone(Built(codes), On([]));
    } else {
      var w := codes[syms[0]].bits;
      assert w[..0] == [] && w[0..] == w;
      WalkCode(codes, syms[0], 0);
      WalkEncoded(codes, syms[1..]);
      WalkConcat(Built(codes), On([]), w, Encode(codes, syms[1..]));
      assert [syms[0]] + syms[1..] == syms;
    }
  }

  lemma {:induction false} WalkNone(t: Tree, st: Status)
    ensures Walk(t, st, []) == Walked([], st)
  {
  }

  lemma {:induction false} GoodSizes(codes: seq<Code>)
    requires Good(codes)
    ensures |codes| == 257 && forall i :: 0 <= i < |codes| ==> |codes[i].bits| >= 4
  {
  }

  /** Whatever the bits, they are those of the symbols found and of the path that is left; or the
      end-of-string symbol was among them. */
  lemma {:induction false} WalkParses(codes: seq<Code>, p: seq<bool>, bits: seq<bool>)
    requires Good(codes) && Place(Built(codes), p)
    ensures |codes| == 257
    ensures var w := Walk(Built(codes), On(p), bits);
            (forall i :: 0 <= i < |w.out| ==> w.out[i] < EOS)
            && (w.st.On? ==> Place(Built(codes), w.st.p) && p + bits == Encode(codes, w.out) + w.st.p)
    decreases |bits|
  {
    hide Built, Place, Good, Walk, Step, Encode;
    GoodSizes(codes);
    var t := Built(codes);
    if bits == [] {
      WalkNone(t, On(p));
      assert Encode(codes, []) == [] by { EncodeNone(codes); }
      assert p + bits == [] + p;
    } else {
      var q, b := p + [bits[0]], bits[1..];
      assert p + bits == q + b;
      PlaceStep(codes, p, bits[0]);
      WalkStep(t, On(p), bits);
      var one := Step(t, On(p), bits[0]);
      match one.st {
        case Dead =>
          WalkDead(t, b);
          assert one.out + [] == one.out;
        case On(p1) =>
          RootPlace(codes);
          WalkParses(codes, p1, b);
          var rest := Walk(t, On(p1), b);
          if one.out == [] {
            assert [] + rest.out == rest.out;
          } else {
            var s := one.out[0];
            assert one.out == [s] && [] + b == b;
            EncodeCons(codes, s, rest.out);
            if rest.st.On? { Regroup(q, Encode(codes, rest.out), rest.st.p); }
          }
      }
    }
  }

  lemma {:induction false} Regroup(a: seq<bool>, b: seq<bool>, c: seq<bool>)
    ensures a + (b + c) == a + b + c
  {
  }

  lemma {:induction false} RootPlace(codes: seq<Code>)
    requires Good(codes)
    ensures Place(Built(codes), [])
  {
    hide Good, Built, Place;
    GoodTree(codes);
  }

  lemma {:induction false} EncodeNone(codes: seq<Code>)
    ensures Encode(codes, []) == []
  {
  }

  lemma {:induction false} EncodeCons(codes: seq<Code>, s: nat, syms: seq<nat>)
    requires s < |codes| && forall i :: 0 <= i < |syms| ==> syms[i] < |codes|
    ensures forall i :: 0 <= i < |[s] + syms| ==> ([s] + syms)[i] < |codes|
    ensures Encode(codes, [s] + syms) == codes[s].bits + Encode(codes, syms)
  {
    assert ([s] + syms)[1..] == syms;
  }

  lemma {:induction false} WalkStep(t: Tree, st: Status, bits: seq<bool>)
    requires bits != []
    ensures var one := Step(t, st, bits[0]);
            var rest := Walk(t, one.st, bits[1..]);
            Walk(t, st, bits) == Walked(one.out + rest.out, rest.st)
  {
  }

  /** One bit from an inner node: to another, or to a symbol whose word is complete. */
  lemma {:induction false} PlaceStep(codes: seq<Code>, p: seq<bool>, b: bool)
    requires Good(codes) && Place(Built(codes), p)
    ensures var one := Step(Built(codes), On(p), b);
            match one.st
            case Dead => one.out == [] && codes[EOS].bits == p + [b]
            case On(q) => if one.out == [] then q == p + [b] && Place(Built(codes), q)
                          else |one.out| == 1 && one.out[0] < EOS && codes[one.out[0]].bits == p + [b] && q == []
  {
    hide Built, PrefixFree, Complete;
    GoodTree(codes);
    BuiltAt(codes, p);
    GoesOn(codes, p, b);
    BuiltAt(codes, p + [b]);
    var u := At(Built(codes), p + [b]);
    if u.term.Symbol? {
      assert Has(codes, u.term.sym, p + [b]);
      var i :| 0 <= i < |codes| && codes[i] == Code(u.term.sym, p + [b]);
      assert codes[i].sym == i;
    }
  }

  // ---- four bits at a time ----

  datatype Target = Stop | To(p: seq<bool>)

  /** What four bits lead to, and the symbol on the way. */
  datatype Entry = Entry(target: Target, sym: Term)

  predicate Leaf(t: Tree, p: seq<bool>) {
    var u := At(t, p);
    u.Node? && u.term.Symbol?
  }

  /** A tree whose symbols all have at least four bits. */
  ghost predicate Usable(t: Tree) {
    Full(t) && t.term.Inner? && forall p :: Leaf(t, p) ==> |p| >= 4
  }

  /** Within four bits, left of them to go: a symbol that is complete leaves no room for another. */
  ghost predicate Going(t: Tree, p: seq<bool>, sym: Term, left: nat) {
    At(t, p).Node? && (sym.Symbol? ==> (Leaf(t, p) && left <= 3) || |p| + left <= 3)
  }

  function From(t: Tree, p: seq<bool>): seq<bool> {
    if Leaf(t, p) then [] else p
  }

  function Seen(t: Tree, c: seq<bool>, sym: Term): Term {
    if Leaf(t, c) then At(t, c).term else sym
  }

  lemma {:induction false} SonIsNode(t: Tree, p: seq<bool>, b: bool)
    requires Full(t) && Place(t, p)
    ensures At(t, p + [b]).Node?
    decreases |p|
  {
    AtStep(t, p, b);
    FullAt(t, p);
  }

  lemma {:induction false} FullAt(t: Tree, p: seq<bool>)
    requires Full(t) && At(t, p).Node?
    ensures Full(At(t, p))
    decreases |p|
  {
    if p != [] {
      NilAt(p[1..]);
      FullAt(if p[0] then t.right else t.left, p[1..]);
    }
  }

  /** One more of the four bits; and no symbol is complete when one was before. */
  lemma {:induction false} GoingOn(t: Tree, p: seq<bool>, sym: Term, left: nat, b: bool)
    requires Usable(t) && Going(t, p, sym, left) && 0 < left <= 4
    ensures var c := From(t, p) + [b];
            Going(t, c, Seen(t, c, sym), left - 1) && (Leaf(t, c) ==> sym.Inner?)
    ensures Place(t, From(t, p))
  {
    SonIsNode(t, From(t, p), b);
  }

  /** _traverse; the assertion that no second symbol comes up is the second part of GoingOn. */
  ghost function Traverse(t: Tree, p: seq<bool>, sym: Term, left: nat): seq<Entry>
    requires Usable(t) && Going(t, p, sym, left) && left <= 4
    decreases left
  {
    if left == 0 then
      [if sym == Symbol(EOS) then Entry(Stop, Inner) else Entry(To(p), sym)]
    else
      GoingOn(t, p, sym, left, false);
      GoingOn(t, p, sym, left, true);
      var c, d := From(t, p) + [false], From(t, p) + [true];
      Traverse(t, c, Seen(t, c, sym), left - 1) + Traverse(t, d, Seen(t, d, sym), left - 1)
  }

  /** One path of the traversal. */
  ghost function Follow(t: Tree, p: seq<bool>, sym: Term, bits: seq<bool>): Entry
    requires Usable(t) && Going(t, p, sym, |bits|) && |bits| <= 4
    decreases |bits|
  {
    if bits == [] then
      if sym == Symbol(EOS) then Entry(Stop, Inner) else Entry(To(p), sym)
    else
      GoingOn(t, p, sym, |bits|, bits[0]);
      var c := From(t, p) + [bits[0]];
      Follow(t, c, Seen(t, c, sym), bits[1..])
  }

  /** The n low bits of k, the highest first. */
  function TopBits(k: nat, n: nat): (b: seq<bool>)
    ensures |b| == n
  {
    if n == 0 then []
    else if k >= Pow2(n - 1) then [true] + TopBits(k - Pow2(n - 1), n - 1)
    else [false] + TopBits(k, n - 1)
  }

  lemma {:induction false} TraverseAt(t: Tree, p: seq<bool>, sym: Term, n: nat, k: nat)
    requires Usable(t) && Going(t, p, sym, n) && n <= 4 && k < Pow2(n)
    ensures |Traverse(t, p, sym, n)| == Pow2(n) && Traverse(t, p, sym, n)[k] == Follow(t, p, sym, TopBits(k, n))
    decreases n
  {
    hide Usable, Going, From, Seen;
    if n > 0 {
      GoingOn(t, p, sym, n, false);
      GoingOn(t, p, sym, n, true);
      var c, d := From(t, p) + [false], From(t, p) + [true];
      var h := Pow2(n - 1);
      TraverseAt(t, c, Seen(t, c, sym), n - 1, if k >= h then 0 else k);
      TraverseAt(t, d, Seen(t, d, sym), n - 1, if k >= h then k - h else 0);
      assert TopBits(k, n)[1..] == TopBits(if k >= h then k - h else k, n - 1);
    }
  }

  /** What an entry says, in terms of the walk. */
  function Result(t: Tree, e: Entry): Walked {
    Walked(match e.sym case Inner => [] case Symbol(s) => [s],
           match e.target case Stop => Dead case To(p) => On(From(t, p)))
  }

  /** Where the walk is after a symbol. */
  function After(t: Tree, p: seq<bool>, sym: Term): Walked {
    if sym == Symbol(EOS) then Walked([], Dead)
    else Walked(match sym case Inner => [] case Symbol(s) => [s], On(From(t, p)))
  }

  /** Four bits at a time give what they give one by one. */
  lemma {:induction false} FollowIsWalk(t: Tree, p: seq<bool>, sym: Term, bits: seq<bool>)
    requires Usable(t) && Going(t, p, sym, |bits|) && |bits| <= 4
    ensures var a := After(t, p, sym);
            var w := Walk(t, a.st, bits);
            Result(t, Follow(t, p, sym, bits)) == Walked(a.out + w.out, w.st)
    decreases |bits|
  {
    hide Usable, Going;
    var a := After(t, p, sym);
    if bits == [] {
      assert a.out + [] == a.out;
    } else {
      GoingOn(t, p, sym, |bits|, bits[0]);
      var c := From(t, p) + [bits[0]];
      FollowIsWalk(t, c, Seen(t, c, sym), bits[1..]);
      WalkStep(t, a.st, bits);
      OneStep(t, p, sym, bits[0], |bits|);
      if sym == Symbol(EOS) {
        WalkDead(t, bits[1..]);
      } else {
        var one := Step(t, a.st, bits[0]);
        var rest := Walk(t, one.st, bits[1..]);
        assert (a.out + one.out) + rest.out == a.out + (one.out + rest.out);
      }
    }
  }

  lemma {:induction false} OneStep(t: Tree, p: seq<bool>, sym: Term, b: bool, left: nat)
    requires Usable(t) && Going(t, p, sym, left) && 0 < left <= 4
    ensures var a, c := After(t, p, sym), From(t, p) + [b];
            var one := Step(t, a.st, b);
            After(t, c, Seen(t, c, sym)) == Walked(a.out + one.out, one.st)
  {
    GoingOn(t, p, sym, left, b);
    var a := After(t, p, sym);
    assert a.out + [] == a.out;
  }

  // ---- the table ----

  /** The transitions of the inner nodes below sub, which is at p, in preorder. */
  ghost function Rows(t: Tree, sub: Tree, p: seq<bool>): seq<seq<Entry>>
    requires Usable(t) && sub == At(t, p)
    decreases sub
  {
    if sub.Nil? || sub.term.Symbol? then []
    else
      AtStep(t, p, false);
      AtStep(t, p, true);
      [Traverse(t, p, Inner, 4)] + Rows(t, sub.left, p + [false]) + Rows(t, sub.right, p + [true])
  }

  /** The row of a node is the one of its id. */
  lemma {:induction false} RowAt(t: Tree, sub: Tree, p: seq<bool>, q: seq<bool>)
    requires Usable(t) && sub == At(t, p)
    ensures |Rows(t, sub, p)| == Inners(sub)
    ensures Full(sub) && Place(sub, q) ==>
              Id(sub, q) < Inners(sub) && Place(t, p + q) && Rows(t, sub, p)[Id(sub, q)] == Traverse(t, p + q, Inner, 4)
    decreases sub
  {
    hide Usable, Traverse;
    if sub.Node? && sub.term.Inner? {
      AtStep(t, p, false);
      AtStep(t, p, true);
      var r := if q == [] then [] else q[1..];
      RowAt(t, sub.left, p + [false], r);
      RowAt(t, sub.right, p + [true], r);
      if q == [] {
        assert p + q == p;
      } else {
        assert p + q == (p + [q[0]]) + r;
        NilAt(r);
      }
    } else if q != [] {
      NilAt(q[1..]);
    }
  }

  datatype Cell = Cell(fstate: nat, sym: nat)

  /** The id of a node, and the flags; a complete symbol is as good as the root. */
  function StateOf(t: Tree, target: Target): nat {
    match target
    case Stop => 256
    case To(p) =>
      if Leaf(t, p) then 0 + ACCEPTED
      else Id(t, p) + if Padding(p) then ACCEPTED else 0
  }

  function Printed(t: Tree, e: Entry): Cell {
    match e.sym
    case Inner => Cell(StateOf(t, e.target), 0)
    case Symbol(s) => Cell(StateOf(t, e.target) + SYM, s)
  }

  /** _print_transition_table, and the row of the state that means failure. */
  ghost predicate IsTable(t: Tree, table: seq<seq<Cell>>)
    requires Usable(t)
  {
    && |table| == Inners(t) + 1
    && (forall i :: 0 <= i < |table| ==> |table[i]| == 16)
    && (forall p: seq<bool>, k: nat :: Place(t, p) && k < 16 && Id(t, p) < Inners(t) ==>
          PrintedAt(t, table, p, k))
    && (forall k :: 0 <= k < 16 ==> table[Inners(t)][k] == Cell(256, 0))
  }

  ghost predicate PrintedAt(t: Tree, table: seq<seq<Cell>>, p: seq<bool>, k: nat)
    requires Usable(t) && Place(t, p) && k < 16 && Id(t, p) < |table| && |table[Id(t, p)]| == 16
  {
    table[Id(t, p)][k] == Printed(t, Follow(t, p, Inner, TopBits(k, 4)))
  }

  function PrintRow(t: Tree, row: seq<Entry>): (r: seq<Cell>)
    ensures |r| == |row| && forall k :: 0 <= k < |row| ==> r[k] == Printed(t, row[k])
  {
    seq(|row|, k requires 0 <= k < |row| => Printed(t, row[k]))
  }

  /** The row of the state that means failure. */
  function FailureRow(): (r: seq<Cell>)
    ensures |r| == 16 && forall k :: 0 <= k < 16 ==> r[k] == Cell(256, 0)
  {
    seq(16, k => Cell(256, 0))
  }

  ghost function PrintTable(t: Tree): (table: seq<seq<Cell>>)
    requires Usable(t)
    ensures |table| == |Rows(t, t, [])| + 1
    ensures forall i :: 0 <= i < |Rows(t, t, [])| ==> table[i] == PrintRow(t, Rows(t, t, [])[i])
    ensures table[|Rows(t, t, [])|] == FailureRow()
  {
    var rows := Rows(t, t, []);
    seq(|rows|, i requires 0 <= i < |rows| => PrintRow(t, rows[i])) + [FailureRow()]
  }

  /** Every row has the id of its node, and 16 entries: those of the four-bit steps. */
  lemma {:induction false} TableIs(t: Tree)
    requires Usable(t)
    ensures IsTable(t, PrintTable(t))
  {
    hide Usable, Rows, Traverse, Follow, Printed, PrintTable, PrintRow, TopBits;
    var table, rows := PrintTable(t), Rows(t, t, []);
    RowAt(t, t, [], []);
    assert Pow2(4) == 16;
    forall i | 0 <= i < |rows|
      ensures |rows[i]| == 16
    {
      RowSize(t, t, [], i);
    }
    forall p: seq<bool>, k: nat | Place(t, p) && k < 16 && Id(t, p) < Inners(t)
      ensures PrintedAt(t, table, p, k)
    {
      RowAt(t, t, [], p);
      IsFull(t);
      assert [] + p == p;
      TraverseAt(t, p, Inner, 4, k);
    }
  }

  lemma {:induction false} IsFull(t: Tree)
    requires Usable(t)
    ensures Full(t)
  {
  }

  lemma {:induction false} RowSize(t: Tree, sub: Tree, p: seq<bool>, i: nat)
    requires Usable(t) && sub == At(t, p) && i < |Rows(t, sub, p)|
    ensures |Rows(t, sub, p)[i]| == 16
    decreases sub
  {
    hide Usable, Traverse;
    AtStep(t, p, false);
    AtStep(t, p, true);
    var a := Rows(t, sub.left, p + [false]);
    if i == 0 {
      assert Pow2(4) == 16;
      TraverseAt(t, p, Inner, 4, 0);
    } else if i <= |a| {
      RowSize(t, sub.left, p + [false], i - 1);
    } else {
      RowSize(t, sub.right, p + [true], i - 1 - |a|);
    }
  }

  // ---- the decoder ----

  /** What the number of a state stands for. */
  ghost predicate Represents(t: Tree, fstate: nat, st: Status) {
    match st
    case Dead => fstate == 256
    case On(p) =>
      && Place(t, p) && fstate % 512 == Id(t, p) < 256
      && (fstate / ACCEPTED % 2 == 1 <==> Padding(p))
  }

  lemma {:induction false} PrintedMeans(t: Tree, e: Entry)
    requires Usable(t) && Inners(t) == 256 && (e.target.To? ==> At(t, e.target.p).Node?)
    requires e.target.Stop? ==> e.sym.Inner?
    ensures var c, w := Printed(t, e), Result(t, e);
            Represents(t, c.fstate, w.st)
            && (if c.fstate / SYM % 2 == 1 then w.out == [c.sym] else w.out == [])
  {
    hide Full, Inners, Id, Padding;
    match e.target {
      case Stop =>
        FlagBits(256, false, e.sym.Symbol?);
      case To(p) =>
        IsFull(t);
        if Place(t, p) {
          IdRange(t, p);
          FlagBits(Id(t, p), Padding(p), e.sym.Symbol?);
        } else {
          FlagBits(0, true, e.sym.Symbol?);
          RootFirst(t);
        }
    }
  }

  /** The flags are above the numbers. */
  lemma {:induction false} FlagBits(id: nat, accepted: bool, sym: bool)
    requires id < 512
    ensures var n := id + (if accepted then ACCEPTED else 0) + (if sym then SYM else 0);
            n % 512 == id && (n / ACCEPTED % 2 == 1 <==> accepted) && (n / SYM % 2 == 1 <==> sym)
  {
  }

  lemma {:induction false} RootFirst(t: Tree)
    requires Usable(t)
    ensures Place(t, []) && Id(t, []) == 0 && Padding([])
  {
  }

  lemma {:induction false} FollowEnds(t: Tree, p: seq<bool>, sym: Term, bits: seq<bool>)
    requires Usable(t) && Going(t, p, sym, |bits|) && |bits| <= 4
    ensures var e := Follow(t, p, sym, bits);
            (e.target.To? ==> At(t, e.target.p).Node?) && (e.target.Stop? ==> e.sym.Inner?)
    decreases |bits|
  {
    if bits != [] {
      GoingOn(t, p, sym, |bits|, bits[0]);
      var c := From(t, p) + [bits[0]];
      FollowEnds(t, c, Seen(t, c, sym), bits[1..]);
    }
  }

  /** One step of the automaton is four of the walk. */
  lemma {:induction false} NibbleStep(t: Tree, table: seq<seq<Cell>>, fstate: nat, st: Status, k: nat)
    requires Usable(t) && Inners(t) == 256 && IsTable(t, table) && Represents(t, fstate, st) && k < 16
    ensures fstate % 512 < |table| && |table[fstate % 512]| == 16
    ensures var c, w := table[fstate % 512][k], Walk(t, st, TopBits(k, 4));
            Represents(t, c.fstate, w.st)
            && (if c.fstate / SYM % 2 == 1 then w.out == [c.sym] else w.out == [])
  {
    hide Follow, Walk, Printed, TopBits, Result, Id, Full;
    match st {
      case Dead =>
        WalkDead(t, TopBits(k, 4));
      case On(p) =>
        var bits := TopBits(k, 4);
        assert PrintedAt(t, table, p, k);
        FollowIsWalk(t, p, Inner, bits);
        FollowEnds(t, p, Inner, bits);
        PrintedMeans(t, Follow(t, p, Inner, bits));
        assert [] + Walk(t, st, bits).out == Walk(t, st, bits).out;
    }
  }

  /** The bits of a string, the highest of each byte first. */
  function StringBits(src: seq<byte>): seq<bool> {
    if src == [] then []
    else
      var n := |src| - 1;
      StringBits(src[..n]) + (TopBits(src[n] / 16, 4) + TopBits(src[n] % 16, 4))
  }

  /** Bit j of byte i, counted from the highest. */
  lemma {:induction false} StringBit(src: seq<byte>, i: nat, j: nat)
    requires i < |src| && j < 8
    ensures |StringBits(src)| == 8 * |src|
    ensures StringBits(src)[8 * i + j] == (src[i] / Pow2(7 - j) % 2 == 1)
    decreases |src|
  {
    hide TopBits, Pow2;
    var n := |src| - 1;
    var v := src[n];
    if i < n {
      StringBit(src[..n], i, j);
    } else {
      StringSize(src[..n]);
      NibbleBit(v, j);
    }
  }

  lemma {:induction false} StringSize(src: seq<byte>)
    ensures |StringBits(src)| == 8 * |src|
    decreases |src|
  {
    if src != [] { StringSize(src[..|src| - 1]); }
  }

  lemma {:induction false} NibbleBit(v: byte, j: nat)
    requires j < 8
    ensures (TopBits(v / 16, 4) + TopBits(v % 16, 4))[j] == (v / Pow2(7 - j) % 2 == 1)
  {
    hide TopBits, Pow2;
    if j < 4 { HighNibble(v, j); } else { LowNibble(v, j - 4); }
  }

  lemma {:induction false} HighNibble(v: byte, j: nat)
    requires j < 4
    ensures TopBits(v / 16, 4)[j] == (v / Pow2(7 - j) % 2 == 1)
  {
    hide TopBits, Pow2;
    FourBits(v / 16);
    BytePowers();
    HighBits(v);
  }

  lemma {:induction false} LowNibble(v: byte, j: nat)
    requires j < 4
    ensures TopBits(v % 16, 4)[j] == (v / Pow2(3 - j) % 2 == 1)
  {
    hide TopBits, Pow2;
    FourBits(v % 16);
    BytePowers();
    LowBits(v);
  }

  lemma {:induction false} HighBits(v: byte)
    ensures v / 16 / 8 == v / 128 && v / 16 / 4 == v / 64 && v / 16 / 2 == v / 32
  {
  }

  lemma {:induction false} LowBits(v: byte)
    ensures v % 16 / 8 % 2 == v / 8 % 2 && v % 16 / 4 % 2 == v / 4 % 2
    ensures v % 16 / 2 % 2 == v / 2 % 2 && v % 16 % 2 == v % 2
  {
    var h, l := v / 16, v % 16;
    LowParts(h, l);
    EvenMore(h, l / 8);
    EvenMore(2 * h, l / 4);
    EvenMore(4 * h, l / 2);
    EvenMore(8 * h, l);
  }

  lemma {:induction false} LowParts(h: nat, l: nat)
    requires l < 16
    ensures (16 * h + l) / 8 == 2 * h + l / 8 && (16 * h + l) / 4 == 4 * h + l / 4 && (16 * h + l) / 2 == 8 * h + l / 2
  {
  }

  lemma {:induction false} EvenMore(h: nat, l: nat)
    ensures (2 * h + l) % 2 == l % 2
  {
  }

  lemma {:induction false} BytePowers()
    ensures Pow2(0) == 1 && Pow2(1) == 2 && Pow2(2) == 4 && Pow2(3) == 8 && Pow2(4) == 16 && Pow2(5) == 32
    ensures Pow2(6) == 64 && Pow2(7) == 128
  {
  }

  lemma {:induction false} FourBits(v: nat)
    requires v < 16
    ensures TopBits(v, 4) == [v / 8 % 2 == 1, v / 4 % 2 == 1, v / 2 % 2 == 1, v % 2 == 1]
  {
    BytePowers();
  }

  class Context {
    var fstate: nat

    constructor ()
      ensures fstate == ACCEPTED
    {
      fstate := ACCEPTED;
    }
  }

  /** nghttp2_hd_huff_decode: whatever pieces a string comes in, the symbols found are those of
      the walk over its bits, and the last piece is refused exactly if the end-of-string symbol
      was among them, or if more is left than up to seven ones. */
  method HuffDecode(table: seq<seq<Cell>>, ctx: Context, src: seq<byte>, final: bool, ghost t: Tree, ghost st: Status)
    returns (ok: bool, out: seq<nat>, ghost end: Status)
    requires Usable(t) && Inners(t) == 256 && IsTable(t, table) && Represents(t, ctx.fstate, st)
    modifies ctx
    ensures Walked(out, end) == Walk(t, st, StringBits(src)) && Represents(t, ctx.fstate, end)
    ensures !ok <==> final && !(end.On? && Padding(end.p))
    ensures ctx.fstate == 256 <==> end.Dead?
  {
    hide Usable, IsTable, Represents, Walk, TopBits;
    var fstate: nat := ctx.fstate;
    out, end := [], st;
    WalkNone(t, st);
    assert src[..0] == [];
    for i := 0 to |src|
      invariant Represents(t, fstate, end) && Walked(out, end) == Walk(t, st, StringBits(src[..i]))
    {
      var c := src[i];
      ghost var before, mid, high, low := out, end, TopBits(c / 16, 4), TopBits(c % 16, 4);
      NibbleStep(t, table, fstate, end, c / 16);
      var cell := table[fstate % 512][c / 16];
      if cell.fstate / SYM % 2 == 1 { out := out + [cell.sym]; }
      ghost var w := Walk(t, end, high);
      NibbleStep(t, table, cell.fstate, w.st, c % 16);
      var next := table[cell.fstate % 512][c % 16];
      if next.fstate / SYM % 2 == 1 { out := out + [next.sym]; }
      ghost var v := Walk(t, w.st, low);
      assert out == before + (w.out + v.out);
      WalkConcat(t, end, high, low);
      WalkConcat(t, st, StringBits(src[..i]), high + low);
      assert src[..i + 1][..i] == src[..i];
      fstate := next.fstate;
      end := v.st;
    }
    assert src[..|src|] == src;
    ctx.fstate := fstate;
    Verdict(t, fstate, end);
    ok := !(final && fstate / ACCEPTED % 2 == 0);
  }

  lemma {:induction false} Verdict(t: Tree, fstate: nat, st: Status)
    requires Represents(t, fstate, st)
    ensures fstate / ACCEPTED % 2 == 1 <==> st.On? && Padding(st.p)
    ensures fstate == 256 <==> st.Dead?
  {
  }

  // ---- strings ----

  lemma {:induction false} GoodUsable(codes: seq<Code>)
    requires Good(codes)
    ensures Usable(Built(codes)) && Inners(Built(codes)) == 256
  {
    hide Built, Good, Full;
    GoodTree(codes);
    GoodSizes(codes);
    forall p | Leaf(Built(codes), p)
      ensures |p| >= 4
    {
      LeafIsWord(codes, p);
    }
  }

  lemma {:induction false} LeafIsWord(codes: seq<Code>, p: seq<bool>)
    requires Good(codes) && Leaf(Built(codes), p)
    ensures |p| >= 4
  {
    hide Built, PrefixFree, Complete;
    BuiltAt(codes, p);
    var s := At(Built(codes), p).term.sym;
    LongWords(codes, s, p);
    assert Has(codes, s, p);
  }

  function Ones(k: nat): seq<bool> {
    seq(k, i => true)
  }

  /** Up to seven ones do not make a symbol. */
  lemma {:induction false} OnesPlace(codes: seq<Code>, k: nat)
    requires Good(codes) && k <= 7
    ensures Place(Built(codes), Ones(k)) && Padding(Ones(k))
        && Walk(Built(codes), On([]), Ones(k)) == Walked([], On(Ones(k)))
    decreases k
  {
    hide Built, PrefixFree, Complete;
    var t := Built(codes);
    assert Ones(k) <= codes[EOS].bits;
    BuiltAt(codes, Ones(k));
    forall x
      ensures !Has(codes, x, Ones(k))
    {
      OnlyWord(codes, x, Ones(k), EOS);
    }
    if k > 0 {
      OnesPlace(codes, k - 1);
      assert Ones(k) == Ones(k - 1) + [true];
      WalkConcat(t, On([]), Ones(k - 1), [true]);
      WalkStep(t, On(Ones(k - 1)), [true]);
      WalkNone(t, On(Ones(k)));
    }
  }

  lemma {:induction false} PaddingIsOnes(p: seq<bool>)
    requires Padding(p)
    ensures p == Ones(|p|)
  {
  }

  /** A string is accepted exactly if it is the code words of symbols, with up to seven ones
      behind them; and then these are the symbols found. */
  lemma {:induction false} AcceptedIsEncoded(codes: seq<Code>, bits: seq<bool>, syms: seq<nat>, k: nat)
    requires Good(codes)
    ensures |codes| == 257
    ensures (forall i :: 0 <= i < |syms| ==> syms[i] < EOS) && k <= 7 && bits == Encode(codes, syms) + Ones(k)
       <==> Walk(Built(codes), On([]), bits) == Walked(syms, On(Ones(k))) && Padding(Ones(k))
  {
    hide Built, Good, Walk, Place;
    GoodSizes(codes);
    RootPlace(codes);
    WalkParses(codes, [], bits);
    assert [] + bits == bits;
    if (forall i :: 0 <= i < |syms| ==> syms[i] < EOS) && k <= 7 && bits == Encode(codes, syms) + Ones(k) {
      WalkEncoded(codes, syms);
      OnesPlace(codes, k);
      WalkConcat(Built(codes), On([]), Encode(codes, syms), Ones(k));
      assert syms + [] == syms;
    }
  }
}
