/** mkhufftbl.py as it works: nodes that are linked, numbered, and given their transitions, in
    place, and the table that is printed of them, which is that of module Hpack. */
module HpackTree {
  import opened Bits
  import opened Hpack

  /** An entry of a node's list: the node that four bits lead to, null for none, and the symbol. */
  datatype Transition = Transition(node: HuffNode?, sym: Term)

  class HuffNode {
    var term: Term
    var left: HuffNode?
    var right: HuffNode?
    var id: int               // -1: none
    var accept: bool
    var trans: seq<Transition>
    ghost var repr: set<HuffNode>

    constructor ()
      ensures Valid() && repr == {this} && Shape() == Node(Inner, Nil, Nil) && Blank()
    {
      term, left, right, id, accept, trans := Inner, null, null, -1, false, [];
      repr := {this};
    }

    ghost predicate Valid()
      reads this`left, this`right, this`repr, repr`left, repr`right, repr`repr
      decreases repr
    {
      && this in repr
      && (left != null ==> left in repr && left.repr <= repr - {this} && left.Valid())
      && (right != null ==> right in repr && right.repr <= repr - {this} && right.Valid())
      && (left != null && right != null ==> left.repr !! right.repr)
    }

    /** The tree below a node. */
    ghost function Shape(): (t: Tree)
      requires Valid()
      reads this`left, this`right, this`repr, this`term, repr`left, repr`right, repr`repr, repr`term
      ensures t.Node?
      decreases repr
    {
      Node(term, if left == null then Nil else left.Shape(), if right == null then Nil else right.Shape())
    }

    /** The node at the end of a path. */
    ghost function NodeAt(p: seq<bool>): (n: HuffNode?)
      requires Valid()
      reads this`left, this`right, this`repr, repr`left, repr`right, repr`repr
      ensures n != null ==> n in repr
      decreases repr
    {
      if p == [] then this
      else
        var c := if p[0] then right else left;
        if c == null then null else c.NodeAt(p[1..])
    }

    lemma {:induction false} NodeShape(p: seq<bool>)
      requires Valid()
      ensures NodeAt(p) != null <==> At(Shape(), p).Node?
      ensures var n := NodeAt(p); n != null ==> n.repr <= repr && n.Valid() && n.Shape() == At(Shape(), p)
      decreases |p|
    {
      if p != [] {
        NilAt(p[1..]);
        var c := if p[0] then right else left;
        if c != null { c.NodeShape(p[1..]); }
      }
    }

    lemma {:induction false} NodeStep(p: seq<bool>, b: bool)
      requires Valid()
      ensures NodeAt(p + [b]) == (var n := NodeAt(p); if n == null then null else if b then n.right else n.left)
      decreases |p|
    {
      if p == [] {
        assert (p + [b])[1..] == [];
      } else {
        assert (p + [b])[1..] == p[1..] + [b];
        var c := if p[0] then right else left;
        if c != null { c.NodeStep(p[1..], b); }
      }
    }

    /** No node has a number or a transition yet. */
    ghost predicate Blank()
      reads this`repr, repr`id, repr`accept, repr`trans
    {
      forall n <- repr :: n.id == -1 && !n.accept && n.trans == []
    }

    /** The inner nodes have numbers, in preorder, and know whether their path is padding. */
    ghost predicate Numbered(first: nat, prefix: seq<bool>)
      requires Valid()
      reads this`left, this`right, this`repr, this`term, repr`left, repr`right, repr`repr, repr`term
      reads repr`id, repr`accept
    {
      forall p :: NodeAt(p) != null ==> NodeAt(p).NumberIs(first + Id(Shape(), p), Padding(prefix + p))
    }

    ghost predicate NumberIs(number: nat, padding: bool)
      reads this`term, this`id, this`accept
    {
      if term.Symbol? then id == -1 && !accept else id == number && accept == padding
    }

    /** Every node below this one, which is at p, has its transitions. */
    ghost predicate Linked(root: HuffNode, p: seq<bool>)
      requires Valid() && root.Valid() && Usable(root.Shape())
      reads root`left, root`right, root`repr, root`term
      reads root.repr`left, root.repr`right, root.repr`repr, root.repr`term
      reads this`left, this`right, this`repr, repr`left, repr`right, repr`repr, repr`trans
    {
      forall q :: NodeAt(q) != null && At(root.Shape(), p + q).Node? ==>
                    NodeAt(q).trans == Made(root, Traverse(root.Shape(), p + q, Inner, 4))
    }
  }

  /** An entry of the traversal as it is kept in a node. */
  ghost function MadeOne(root: HuffNode, e: Entry): Transition
    requires root.Valid()
    reads root`left, root`right, root`repr, root.repr`left, root.repr`right, root.repr`repr
  {
    Transition(match e.target case Stop => null case To(q) => root.NodeAt(q), e.sym)
  }

  ghost function Made(root: HuffNode, es: seq<Entry>): (r: seq<Transition>)
    requires root.Valid()
    reads root`left, root`right, root`repr, root.repr`left, root.repr`right, root.repr`repr
    ensures |r| == |es| && forall i :: 0 <= i < |es| ==> r[i] == MadeOne(root, es[i])
  {
    if es == [] then [] else [MadeOne(root, es[0])] + Made(root, es[1..])
  }

  lemma {:induction false} MadeConcat(root: HuffNode, a: seq<Entry>, b: seq<Entry>)
    requires root.Valid()
    ensures Made(root, a + b) == Made(root, a) + Made(root, b)
  {
  }

  // ---- the tree ----

  /** What makes a node well formed, of its own fields and of its sons. */
  ghost predicate Joined(node: HuffNode)
    reads node`left, node`right, node`repr, node.repr`left, node.repr`right, node.repr`repr
  {
    && node in node.repr
    && (node.left != null ==>
          && node.left in node.repr && node.left.repr <= node.repr - {node}
          && node.left.Valid() && node.left in node.left.repr)
    && (node.right != null ==>
          && node.right in node.repr && node.right.repr <= node.repr - {node}
          && node.right.Valid() && node.right in node.right.repr)
    && (node.left != null && node.right != null ==> node.left.repr !! node.right.repr)
  }

  ghost function SubTree(node: HuffNode?): Tree
    requires node != null ==> node.Valid()
    reads if node == null then {} else {node} + node.repr
  {
    if node == null then Nil else node.Shape()
  }

  lemma {:induction false} Parts(node: HuffNode)
    ensures node.Valid() <==> Joined(node)
    ensures node.Valid() ==> node.Shape() == Node(node.term, SubTree(node.left), SubTree(node.right))
  {
  }

  /** _add */
  method AddCode(node: HuffNode, sym: nat, bits: seq<bool>)
    requires node.Valid() && node.Blank()
    modifies node.repr
    ensures node.Valid() && node.Blank() && node.repr >= old(node.repr) && fresh(node.repr - old(node.repr))
    ensures node.Shape() == Add(old(node.Shape()), sym, bits)
    decreases |bits|
  {
    hide HuffNode.Valid, HuffNode.Shape;
    Parts(node);
    if bits == [] {
      node.term := Symbol(sym);
    } else {
      NeedSon(node, bits[0]);
      Parts(node);
      var child := if bits[0] then node.right else node.left;
      AddCode(child, sym, bits[1..]);
      node.repr := node.repr + child.repr;
    }
    Parts(node);
  }

  /** A son for a bit, if there is none. */
  method NeedSon(node: HuffNode, b: bool)
    requires node.Valid() && node.Blank()
    modifies node`left, node`right, node`repr
    ensures node.Valid() && node.Blank() && node.repr >= old(node.repr) && fresh(node.repr - old(node.repr))
    ensures node.term == old(node.term) && (if b then node.right != null else node.left != null)
    ensures node.Shape() == (var t := old(node.Shape());
                             if b then (if t.right.Nil? then t.(right := Node(Inner, Nil, Nil)) else t)
                             else if t.left.Nil? then t.(left := Node(Inner, Nil, Nil)) else t)
  {
    if b && node.right == null {
      node.right := new HuffNode();
      node.repr := node.repr + node.right.repr;
    }
    if !b && node.left == null {
      node.left := new HuffNode();
      node.repr := node.repr + node.left.repr;
    }
  }

  /** The tree of a list of codes. */
  method BuildTree(codes: seq<Code>) returns (root: HuffNode)
    ensures root.Valid() && root.Blank() && root.Shape() == Built(codes) && fresh(root.repr)
  {
    hide Add;
    root := new HuffNode();
    assert codes[..0] == [];
    for i := 0 to |codes|
      invariant root.Valid() && root.Blank() && root.Shape() == Built(codes[..i]) && fresh(root.repr)
    {
      assert codes[..i + 1][..i] == codes[..i];
      AddCode(root, codes[i].sym, codes[i].bits);
    }
    assert codes[..|codes|] == codes;
  }

  // ---- the numbers ----

  class Counter {
    var next_id: nat

    constructor ()
      ensures next_id == 0
    {
      next_id := 0;
    }
  }

  /** _set_node_id */
  method SetNodeId(ctx: Counter, node: HuffNode, prefix: seq<bool>)
    requires node.Valid() && Full(node.Shape()) && forall n <- node.repr :: n.id == -1 && !n.accept
    modifies ctx, node.repr`id, node.repr`accept
    ensures ctx.next_id == old(ctx.next_id) + Inners(node.Shape())
    ensures node.Numbered(old(ctx.next_id), prefix)
    decreases node.repr
  {
    hide Padding, HuffNode.Numbered, HuffNode.Valid, HuffNode.Shape, Id;
    ghost var first := ctx.next_id;
    Parts(node);
    if node.term.Symbol? {
      NumberedNone(node, first, prefix);
      return;
    }
    if Padding(prefix) { node.accept := true; }
    node.id := ctx.next_id;
    ctx.next_id := ctx.next_id + 1;
    SetNodeId(ctx, node.left, prefix + [false]);
    SetNodeId(ctx, node.right, prefix + [true]);
    NumberedBoth(node, first, prefix);
  }

  lemma {:induction false} NumberedNone(node: HuffNode, first: nat, prefix: seq<bool>)
    requires node.Valid() && Full(node.Shape()) && node.term.Symbol? && node.id == -1 && !node.accept
    ensures node.Numbered(first, prefix)
  {
    hide Padding;
    forall p | node.NodeAt(p) != null
      ensures p == []
    {
    }
  }

  lemma {:induction false} NumberedBoth(node: HuffNode, first: nat, prefix: seq<bool>)
    requires node.Valid() && node.left != null && node.right != null && node.term.Inner?
    requires node.NumberIs(first, Padding(prefix)) && node.left.Numbered(first + 1, prefix + [false])
    requires node.right.Numbered(first + 1 + Inners(node.left.Shape()), prefix + [true])
    ensures node.Numbered(first, prefix)
  {
    hide Padding;
    forall p | node.NodeAt(p) != null
      ensures node.NodeAt(p).NumberIs(first + Id(node.Shape(), p), Padding(prefix + p))
    {
      if p == [] {
        assert prefix + p == prefix;
      } else {
        assert prefix + p == (prefix + [p[0]]) + p[1..];
      }
    }
  }

  // ---- the transitions ----

  /** The nodes that the traversal ends at are there. */
  lemma {:induction false} TargetsThere(t: Tree, p: seq<bool>, sym: Term, left: nat, i: nat)
    requires Usable(t) && Going(t, p, sym, left) && left <= 4 && i < |Traverse(t, p, sym, left)|
    ensures var e := Traverse(t, p, sym, left)[i]; e.target.To? ==> At(t, e.target.p).Node?
    decreases left
  {
    hide Usable, From, Seen;
    if left > 0 {
      GoingOn(t, p, sym, left, false);
      GoingOn(t, p, sym, left, true);
      var c, d := From(t, p) + [false], From(t, p) + [true];
      var a := |Traverse(t, c, Seen(t, c, sym), left - 1)|;
      if i < a {
        TargetsThere(t, c, Seen(t, c, sym), left - 1, i);
      } else {
        TargetsThere(t, d, Seen(t, d, sym), left - 1, i - a);
      }
    }
  }

  /** A node of the tree, seen at its path. */
  lemma {:induction false} Placed(root: HuffNode, p: seq<bool>, node: HuffNode)
    requires root.Valid() && root.NodeAt(p) == node
    ensures root.NodeAt([]) == root
    ensures var u := At(root.Shape(), p); u.Node? && u.term == node.term
    ensures node.left == root.NodeAt(p + [false]) && node.right == root.NodeAt(p + [true])
    ensures node.left != null <==> At(root.Shape(), p + [false]).Node?
    ensures node.right != null <==> At(root.Shape(), p + [true]).Node?
  {
    root.NodeShape(p);
    root.NodeStep(p, false);
    root.NodeStep(p, true);
    root.NodeShape(p + [false]);
    root.NodeShape(p + [true]);
  }

  lemma {:induction false} MadeStep(root: HuffNode, p: seq<bool>, sym: Term, left: nat)
    requires root.Valid() && Usable(root.Shape()) && Going(root.Shape(), p, sym, left) && left <= 4
    ensures left == 0 ==>
              Made(root, Traverse(root.Shape(), p, sym, left))
              == [if sym == Symbol(EOS) then Transition(null, Inner) else Transition(root.NodeAt(p), sym)]
    ensures left > 0 ==>
              var t := root.Shape();
              var c, d := From(t, p) + [false], From(t, p) + [true];
              && At(t, c).Node? && At(t, d).Node?
              && Going(t, c, Seen(t, c, sym), left - 1) && (Leaf(t, c) ==> sym.Inner?)
              && Going(t, d, Seen(t, d, sym), left - 1) && (Leaf(t, d) ==> sym.Inner?)
              && Made(root, Traverse(t, p, sym, left))
                 == Made(root, Traverse(t, c, Seen(t, c, sym), left - 1))
                    + Made(root, Traverse(t, d, Seen(t, d, sym), left - 1))
  {
    hide HuffNode.Valid, HuffNode.Shape, HuffNode.NodeAt, Usable, Going, From, Seen;
    var t := root.Shape();
    IsFull(t);
    if left > 0 {
      GoingOn(t, p, sym, left, false);
      GoingOn(t, p, sym, left, true);
      var c, d := From(t, p) + [false], From(t, p) + [true];
      SonIsNode(t, From(t, p), false);
      SonIsNode(t, From(t, p), true);
      MadeConcat(root, Traverse(t, c, Seen(t, c, sym), left - 1), Traverse(t, d, Seen(t, d, sym), left - 1));
    }
  }

  /** _traverse */
  method TraverseFrom(node: HuffNode, sym: Term, start: HuffNode, root: HuffNode, left: nat, ghost p: seq<bool>)
    requires root.Valid() && root.NodeAt(p) == node && left <= 4
    requires Usable(root.Shape()) && Going(root.Shape(), p, sym, left)
    modifies start`trans
    ensures start.trans == old(start.trans) + Made(root, Traverse(root.Shape(), p, sym, left))
    decreases left
  {
    hide HuffNode.Valid, HuffNode.Shape, HuffNode.NodeAt, Usable, Going, Seen, Traverse, Made, MadeOne;
    MadeStep(root, p, sym, left);
    if left == 0 {
      start.trans := start.trans + [if sym == Symbol(EOS) then Transition(null, Inner) else Transition(node, sym)];
      return;
    }
    var n := if node.term.Symbol? then root else node;
    ghost var f := From(root.Shape(), p);
    Placed(root, p, node);
    Placed(root, f, n);
    Go(n.left, sym, start, root, left, f + [false]);
    Go(n.right, sym, start, root, left, f + [true]);
  }

  /** go: the assertion is that of the original. */
  method Go(node: HuffNode?, sym: Term, start: HuffNode, root: HuffNode, left: nat, ghost p: seq<bool>)
    requires root.Valid() && root.NodeAt(p) == node && node != null && 0 < left <= 4 && Usable(root.Shape())
    requires Going(root.Shape(), p, Seen(root.Shape(), p, sym), left - 1) && (Leaf(root.Shape(), p) ==> sym.Inner?)
    modifies start`trans
    ensures var t := root.Shape();
            start.trans == old(start.trans) + Made(root, Traverse(t, p, Seen(t, p, sym), left - 1))
    decreases left, 0
  {
    hide HuffNode.Valid, HuffNode.Shape, HuffNode.NodeAt, Usable, Going, Traverse, Made, MadeOne;
    Placed(root, p, node);
    var nsym := sym;
    if node.term.Symbol? {
      assert sym.Inner?;
      nsym := node.term;
    }
    TraverseFrom(node, nsym, start, root, left - 1, p);
  }

  /** _build_transition_table */
  method BuildTransitions(node: HuffNode?, root: HuffNode, ghost p: seq<bool>)
    requires root.Valid() && root.NodeAt(p) == node && Usable(root.Shape())
    requires node != null ==> node.Valid() && forall n <- node.repr :: n.trans == []
    modifies (if node == null then {} else node.repr)`trans
    ensures node != null ==> node.Linked(root, p)
    decreases if node == null then {} else node.repr
  {
    hide HuffNode.Valid, HuffNode.Shape, HuffNode.NodeAt, HuffNode.Linked, Usable, Traverse, Made, MadeOne;
    if node == null { return; }
    Parts(node);
    Placed(root, p, node);
    TraverseFrom(node, Inner, node, root, 4, p);
    BuildTransitions(node.left, root, p + [false]);
    BuildTransitions(node.right, root, p + [true]);
    LinkedBoth(node, root, p);
  }

  lemma {:induction false} LinkedBoth(node: HuffNode, root: HuffNode, p: seq<bool>)
    requires node.Valid() && root.Valid() && Usable(root.Shape()) && At(root.Shape(), p).Node?
    requires node.trans == Made(root, Traverse(root.Shape(), p, Inner, 4))
    requires node.left != null ==> node.left.Linked(root, p + [false])
    requires node.right != null ==> node.right.Linked(root, p + [true])
    ensures node.Linked(root, p)
  {
    hide Usable, Traverse, Made, MadeOne, HuffNode.Shape, At;
    forall q | node.NodeAt(q) != null && At(root.Shape(), p + q).Node?
      ensures node.NodeAt(q).trans == Made(root, Traverse(root.Shape(), p + q, Inner, 4))
    {
      if q == [] {
        assert p + q == p;
      } else {
        assert p + q == (p + [q[0]]) + q[1..];
      }
    }
  }

  // ---- the printed table ----

  lemma {:induction false} NumberOf(root: HuffNode, q: seq<bool>)
    requires root.Valid() && root.Numbered(0, []) && root.NodeAt(q) != null
    ensures At(root.Shape(), q).Node? && (root.NodeAt(q).term.Symbol? <==> Leaf(root.Shape(), q))
    ensures root.NodeAt(q).NumberIs(Id(root.Shape(), q), Padding(q))
  {
    hide Padding, HuffNode.NumberIs;
    root.NodeShape(q);
    assert [] + q == q;
  }

  /** One entry of the table. The numbers of the nodes are below the flags, so or-ing is adding. */
  method PrintEntry(tr: Transition, ghost root: HuffNode, ghost e: Entry) returns (c: Cell)
    requires root.Valid() && root.Numbered(0, []) && tr == MadeOne(root, e)
    requires e.target.To? ==> At(root.Shape(), e.target.p).Node?
    ensures c == Printed(root.Shape(), e)
  {
    hide HuffNode.Valid, HuffNode.Shape, HuffNode.NodeAt, HuffNode.Numbered, Leaf, Padding, Id;
    var flags, id, out := 0, 256, 0;
    if tr.sym.Symbol? { out, flags := tr.sym.sym, SYM; }
    if e.target.To? {
      root.NodeShape(e.target.p);
      NumberOf(root, e.target.p);
    }
    if tr.node != null {
      if tr.node.id == -1 {
        id, flags := 0, flags + ACCEPTED;
      } else {
        id := tr.node.id;
        if tr.node.accept { flags := flags + ACCEPTED; }
      }
    }
    c := Cell(id + flags, out);
  }

  method PrintNode(node: HuffNode, ghost root: HuffNode, ghost p: seq<bool>) returns (row: seq<Cell>)
    requires root.Valid() && root.NodeAt(p) == node && Usable(root.Shape()) && At(root.Shape(), p).Node?
    requires root.Numbered(0, []) && root.Linked(root, [])
    ensures row == PrintRow(root.Shape(), Traverse(root.Shape(), p, Inner, 4))
  {
    hide HuffNode.Valid, HuffNode.Shape, HuffNode.NodeAt, HuffNode.Numbered, Usable, Traverse, MadeOne, Printed;
    ghost var t := root.Shape();
    ghost var es := Traverse(t, p, Inner, 4);
    assert [] + p == p;
    row := [];
    for i := 0 to |node.trans|
      invariant node.trans == Made(root, es) && |row| == i
      invariant forall k :: 0 <= k < i ==> row[k] == Printed(t, es[k])
    {
      TargetsThere(t, p, Inner, 4, i);
      var c := PrintEntry(node.trans[i], root, es[i]);
      row := row + [c];
    }
  }

  lemma {:induction false} RowsStep(t: Tree, p: seq<bool>)
    requires Usable(t) && At(t, p).Node?
    ensures At(t, p).term.Symbol? ==> Rows(t, At(t, p), p) == []
    ensures At(t, p).term.Inner? ==>
              && At(t, p + [false]).Node? && At(t, p + [true]).Node?
              && Rows(t, At(t, p), p)
                 == [Traverse(t, p, Inner, 4)] + Rows(t, At(t, p + [false]), p + [false])
                    + Rows(t, At(t, p + [true]), p + [true])
  {
    hide Usable, Traverse;
    IsFull(t);
    AtStep(t, p, false);
    AtStep(t, p, true);
    FullAt(t, p);
  }

  /** _print_transition_table */
  method PrintRows(node: HuffNode, ghost root: HuffNode, ghost p: seq<bool>) returns (rows: seq<seq<Cell>>)
    requires node.Valid() && root.Valid() && root.NodeAt(p) == node && Usable(root.Shape())
    requires root.Numbered(0, []) && root.Linked(root, [])
    ensures At(root.Shape(), p).Node?
    ensures var rs := Rows(root.Shape(), At(root.Shape(), p), p);
            |rows| == |rs| && forall i :: 0 <= i < |rs| ==> rows[i] == PrintRow(root.Shape(), rs[i])
    decreases node.repr
  {
    hide HuffNode.Valid, HuffNode.Shape, HuffNode.NodeAt, HuffNode.Numbered, HuffNode.Linked, Usable, Traverse,
         PrintRow, Rows;
    Placed(root, p, node);
    RowsStep(root.Shape(), p);
    if node.term.Symbol? { return []; }
    Parts(node);
    var row := PrintNode(node, root, p);
    var a := PrintRows(node.left, root, p + [false]);
    var b := PrintRows(node.right, root, p + [true]);
    rows := [row] + a + b;
  }

  /** mkhufftbl.py as a whole: the table is the one that the decoder of module Hpack needs. */
  method MakeTable(codes: seq<Code>) returns (table: seq<seq<Cell>>)
    requires Good(codes)
    ensures Usable(Built(codes)) && table == PrintTable(Built(codes)) && IsTable(Built(codes), table)
  {
    hide Good, Built, Usable, Rows, IsTable, HuffNode.Numbered, HuffNode.Linked, Inners, PrintTable, PrintRow,
         HuffNode.Shape;
    var root := BuildTree(codes);
    GoodUsable(codes);
    IsFull(Built(codes));
    var ctx := new Counter();
    SetNodeId(ctx, root, []);
    BuildTransitions(root, root, []);
    table := PrintRows(root, root, []);
    table := table + [FailureRow()];
    LastRow(Built(codes), table);
    TableIs(Built(codes));
  }

  lemma {:induction false} LastRow(t: Tree, table: seq<seq<Cell>>)
    requires Usable(t) && |table| == |Rows(t, t, [])| + 1
    requires forall i :: 0 <= i < |Rows(t, t, [])| ==> table[i] == PrintRow(t, Rows(t, t, [])[i])
    requires table[|Rows(t, t, [])|] == FailureRow()
    ensures table == PrintTable(t)
  {
    hide Usable, Rows, PrintRow;
  }

  // ---- from the code to the strings ----

  /** The bits are the code words of symbols, with k ones behind them that are no more than padding. */
  ghost predicate IsEncoded(codes: seq<Code>, bits: seq<bool>, syms: seq<nat>, k: nat)
    requires |codes| == 257
  {
    (forall i :: 0 <= i < |syms| ==> syms[i] < EOS) && k <= 7 && bits == Encode(codes, syms) + Ones(k)
  }

  lemma {:induction false} WalkOfEncoded(codes: seq<Code>, bits: seq<bool>, syms: seq<nat>, k: nat)
    requires Good(codes)
    ensures |codes| == 257
    ensures IsEncoded(codes, bits, syms, k)
       <==> Walk(Built(codes), On([]), bits) == Walked(syms, On(Ones(k))) && Padding(Ones(k))
  {
    AcceptedIsEncoded(codes, bits, syms, k);
  }

  /** The automaton made of a code, run over a whole string, undoes the encoding of symbols in that
      code, and accepts nothing else. */
  method DecodeString(codes: seq<Code>, src: seq<byte>) returns (ok: bool, out: seq<nat>)
    requires Good(codes)
    ensures |codes| == 257
    ensures ok <==> exists syms, k :: IsEncoded(codes, StringBits(src), syms, k)
    ensures forall syms, k :: IsEncoded(codes, StringBits(src), syms, k) ==> out == syms
  {
    hide Good, Built, Usable, IsTable, Represents, Walk, IsEncoded, PrintTable, Inners;
    GoodSizes(codes);
    GoodUsable(codes);
    ghost var t, bits := Built(codes), StringBits(src);
    var table := MakeTable(codes);
    var ctx := new Context();
    StartsAtRoot(codes);
    ghost var end;
    ok, out, end := HuffDecode(table, ctx, src, true, t, On([]));
    if ok {
      PaddingIsOnes(end.p);
      WalkOfEncoded(codes, bits, out, |end.p|);
      assert IsEncoded(codes, bits, out, |end.p|);
    }
    forall syms, k | IsEncoded(codes, bits, syms, k)
      ensures ok && out == syms
    {
      WalkOfEncoded(codes, bits, syms, k);
    }
  }

  lemma {:induction false} StartsAtRoot(codes: seq<Code>)
    requires Good(codes)
    ensures Represents(Built(codes), ACCEPTED, On([]))
  {
    hide Good, Built;
    RootPlace(codes);
  }
}
