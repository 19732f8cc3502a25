/** Splits against plain nesting, closing a terminal, and the edits of a pane: what each does to the tree. */
module PaneEdit {
  import opened Strings
  import opened Wrappers
  import opened PaneTree
  import opened PaneNormal
  import opened PaneSplit

  // ----- the merge shortcut is flattening -----

  /** The plain form of a split: the pane is replaced by a nested pair and nothing is merged. */
  function PlainSplit(node: Node, q: Request): Node
    decreases node
  {
    match node
    case Leaf(_, ids, _, _) => if q.target in ids then Nested(node, q) else node
    case Split(id, direction, children, weights) =>
      var i := FirstContaining(children, q.target);
      if i == |children| then node
      else Split(id, direction, children[..i] + [PlainSplit(children[i], q)] + children[i + 1..], weights)
  }

  lemma NothingSanitized(valid: set<string>)
    ensures SanitizeAll([], valid) == []
  {
  }

  lemma SanitizeAllStep(nodes: seq<Node>, valid: set<string>)
    requires nodes != []
    ensures var first := Sanitize(nodes[0], valid);
            SanitizeAll(nodes, valid) == (if first.Some? then [first.value] else []) + SanitizeAll(nodes[1..], valid)
  {
    hide Sanitize;
  }

  lemma {:induction false} SanitizeAllConcat(a: seq<Node>, b: seq<Node>, valid: set<string>)
    ensures SanitizeAll(a + b, valid) == SanitizeAll(a, valid) + SanitizeAll(b, valid)
  {
    hide *;
    if a == [] {
      assert a + b == b;
      NothingSanitized(valid);
      assert [] + SanitizeAll(b, valid) == SanitizeAll(b, valid);
    } else {
      assert (a + b)[1..] == a[1..] + b && (a + b)[0] == a[0];
      SanitizeAllConcat(a[1..], b, valid);
      SanitizeAllStep(a, valid);
      SanitizeAllStep(a + b, valid);
    }
  }

  lemma NewLeafNormal(id: string, valid: set<string>)
    requires Clean(id) && id in valid
    ensures NormalLeaf(NewLeaf(id), valid)
  {
    PrefixIsClean("pane-", id);
  }

  /** Around one child that sanitises to s, normal siblings stay as they are. */
  lemma SanitizeAround(a: seq<Node>, c: Node, b: seq<Node>, s: Node, valid: set<string>)
    requires forall n <- a + b :: Normal(n, valid)
    requires Sanitize(c, valid) == Some(s)
    ensures SanitizeAll(a + [c] + b, valid) == a + [s] + b
  {
    forall n | n in a || n in b
      ensures Normal(n, valid)
    {
      assert n in a + b;
    }
    SanitizeAllConcat(a + [c], b, valid);
    SanitizeAllConcat(a, [c], valid);
    NormalAllFixed(a, valid);
    NormalAllFixed(b, valid);
    assert [c][1..] == [] && SanitizeAll([c], valid) == [s] + [];
  }

  lemma FlattenAround(direction: Direction, a: seq<Node>, c: Node, b: seq<Node>, u: seq<real>, w: real, v: seq<real>)
    requires |u| == |a| && |v| == |b|
    requires forall n <- a + b :: !SameDirection(n, direction)
    ensures var s := Spread(direction, c, w);
            Flatten(direction, a + [c] + b, u + [w] + v) == (a + s.0 + b, u + s.1 + v)
  {
    forall n | n in a || n in b
      ensures !SameDirection(n, direction)
    {
      assert n in a + b;
    }
    FlattenConcat(direction, a + [c], b, u + [w], v);
    FlattenConcat(direction, a, [c], u, [w]);
    FlattenNothing(direction, a, u);
    FlattenNothing(direction, b, v);
    FlattenOne(direction, c, w);
  }

  lemma NestedShares(leaf: Node, q: Request, w: real)
    requires w > 0.0
    ensures Spread(DirectionOf(q.position), Nested(leaf, q), w) == (Pair(leaf, q), EvenWeights(w, 2))
  {
    var nested := Nested(leaf, q);
    EvenPair(w);
    var ones := seq(2, i requires 0 <= i < 2 => WeightAt(nested.weights, i));
    assert ones == [1.0] + [1.0] && [1.0][1..] == [];
    SumConcat([1.0], [1.0]);
    assert SafeTotal(nested) == 2.0;
    var shares := Spread(DirectionOf(q.position), nested, w).1;
    assert shares[0] == w * 1.0 / 2.0 && shares[1] == w * 1.0 / 2.0;
    assert shares == EvenWeights(w, 2);
  }

  lemma CutsApart(node: Node, i: nat, valid: set<string>)
    requires Normal(node, valid) && node.Split? && i < |node.children|
    ensures node.children == node.children[..i] + [node.children[i]] + node.children[i + 1..]
    ensures node.weights == node.weights[..i] + [node.weights[i]] + node.weights[i + 1..]
    ensures forall n <- node.children[..i] + node.children[i + 1..] :: Normal(n, valid) && !SameDirection(n, node.direction)
    ensures Normal(node.children[i], valid) && !SameDirection(node.children[i], node.direction) && node.weights[i] > 0.0
    ensures |node.weights| == |node.children| >= 2 && Positive(node.weights)
    ensures Positive(node.weights[..i]) && Positive(node.weights[i + 1..])
    ensures forall n <- node.children :: Normal(n, valid)
  {
    forall n | n in node.children[..i] + node.children[i + 1..]
      ensures n in node.children
    {
    }
  }

  lemma AllMonotone(nodes: seq<Node>, valid: set<string>, more: set<string>)
    requires valid <= more && forall n <- nodes :: Normal(n, valid)
    ensures forall n <- nodes :: Normal(n, more)
  {
    forall n <- nodes
      ensures Normal(n, more)
    {
      NormalMonotone(n, valid, more);
    }
  }

  /**
   * Merging the new pane into its parent's row is the same as nesting it and flattening:
   * the shortcut returns exactly what the sanitiser makes of the plain split.
   */
  lemma {:induction false} MergeIsFlattening(node: Node, q: Request, valid: set<string>)
    requires Normal(node, valid) && q.target in Terminals(node) && Clean(q.newId)
    ensures Sanitize(PlainSplit(node, q), valid + {q.newId}) == Some(SplitNode(node, q).node)
    decreases node
  {
    hide PaneIds, ValidPaneIds, CleanIds;
    var more := valid + {q.newId};
    match node
    case Leaf(_, _, _, _) =>
      NormalLeafFixed(node, valid);
      NewLeafNormal(q.newId, more);
      NormalMonotone(node, valid, more);
      NormalFixed(Nested(node, q), more);
    case Split(id, direction, children, weights) =>
      var i := SplitShape(node, q, valid);
      var c := children[i];
      CutsApart(node, i, valid);
      SplitHappens(c, q, valid);
      MergeIsFlattening(c, q, valid);
      SanitizedChild(node, q, i, valid);
  }

  /** One level of the induction: the split child takes its place in the flat row. */
  lemma SanitizedChild(node: Node, q: Request, i: nat, valid: set<string>)
    requires Normal(node, valid) && node.Split? && i < |node.children|
    requires i == FirstContaining(node.children, q.target)
    requires Sanitize(PlainSplit(node.children[i], q), valid + {q.newId}) == Some(SplitNode(node.children[i], q).node)
    requires q.target in Terminals(node.children[i])
    ensures Sanitize(PlainSplit(node, q), valid + {q.newId}) ==
            Some(if MergesAt(node, i, q) then
              Split(node.id, node.direction, node.children[..i] + Pair(node.children[i], q) + node.children[i + 1..],
                    node.weights[..i] + EvenWeights(node.weights[i], 2) + node.weights[i + 1..])
            else
              Split(node.id, node.direction, node.children[..i] + [SplitNode(node.children[i], q).node] + node.children[i + 1..],
                    node.weights))
  {
    hide PaneIds, ValidPaneIds, CleanIds;
    var more := valid + {q.newId};
    var a, c, b := node.children[..i], node.children[i], node.children[i + 1..];
    var u, w, v := node.weights[..i], node.weights[i], node.weights[i + 1..];
    CutsApart(node, i, valid);
    AllMonotone(a + b, valid, more);
    SplitHappens(c, q, valid);
    var s := SplitNode(c, q).node;
    SanitizeAround(a, PlainSplit(c, q), b, s, more);
    assert Sanitize(PlainSplit(node, q), more) == Rebuild(node.id, node.direction, a + [s] + b, node.weights);
    hide *;
    RebuildAround(node.id, node.direction, a, s, b, u, w, v);
    SpreadOfSplit(node.direction, c, q, w, valid);
    if MergesAt(node, i, q) {
      EvenPair(w);
      PositiveAround(u, EvenWeights(w, 2), v);
    }
  }

  lemma PositiveAround(u: seq<real>, m: seq<real>, v: seq<real>)
    requires Positive(u) && Positive(m) && Positive(v)
    ensures Positive(u + m + v)
  {
  }

  /** What a split child contributes to its parent's row. */
  lemma SpreadOfSplit(direction: Direction, c: Node, q: Request, w: real, valid: set<string>)
    requires w > 0.0 && Normal(c, valid) && q.target in Terminals(c) && !SameDirection(c, direction)
    ensures Spread(direction, SplitNode(c, q).node, w) ==
            if c.Leaf? && direction == DirectionOf(q.position) then (Pair(c, q), EvenWeights(w, 2))
            else ([SplitNode(c, q).node], [w])
  {
    SplitHappens(c, q, valid);
    NestedShares(c, q, w);
    hide SplitNode, Normal, Terminals, EvenWeights;
  }

  lemma RebuildAround(id: string, direction: Direction, a: seq<Node>, s: Node, b: seq<Node>, u: seq<real>, w: real, v: seq<real>)
    requires |u| == |a| && |v| == |b| && |a| + |b| >= 1 && Positive(u + [w] + v)
    requires forall n <- a + b :: !SameDirection(n, direction)
    ensures var r := Spread(direction, s, w);
            Positive(u + r.1 + v) && |r.0| >= 1 ==>
              Rebuild(id, direction, a + [s] + b, u + [w] + v) == Some(Split(id, direction, a + r.0 + b, u + r.1 + v))
  {
    FlattenAround(direction, a, s, b, u, w, v);
  }

  /** A split tree is normal again. */
  lemma SplitIsNormal(node: Node, q: Request, valid: set<string>)
    requires Normal(node, valid) && q.target in Terminals(node) && Clean(q.newId)
    ensures Normal(SplitNode(node, q).node, valid + {q.newId})
  {
    MergeIsFlattening(node, q, valid);
    SanitizeIsNormal(PlainSplit(node, q), valid + {q.newId});
  }

  // ----- terminals of a split tree -----

  lemma AllTerminals3(a: seq<Node>, m: seq<Node>, b: seq<Node>)
    ensures AllTerminals(a + m + b) == AllTerminals(a) + AllTerminals(m) + AllTerminals(b)
  {
    AllTerminalsConcat(a + m, b);
    AllTerminalsConcat(a, m);
  }

  lemma PairTerminals(leaf: Node, q: Request)
    requires leaf.Leaf? && Clean(q.newId)
    ensures multiset(AllTerminals(Pair(leaf, q))) == multiset(Terminals(leaf)) + multiset{q.newId}
  {
    hide PaneIds, ValidPaneIds, CleanIds;
    NewLeafNormal(q.newId, {q.newId});
    NormalLeafFixed(NewLeaf(q.newId), {q.newId});
    var pair := Pair(leaf, q);
    AllTerminalsOne(pair[0]);
    AllTerminalsOne(pair[1]);
    AllTerminalsConcat([pair[0]], [pair[1]]);
    assert pair == [pair[0]] + [pair[1]];
  }

  lemma LeafTerminals(leaf: Node)
    requires leaf.Leaf?
    ensures Terminals(leaf) == PaneIds(leaf)
  {
  }

  lemma RowTerminals(node: Node, a: seq<Node>, m: seq<Node>, b: seq<Node>)
    requires node.Split? && node.children == a + m + b
    ensures Terminals(node) == AllTerminals(a) + AllTerminals(m) + AllTerminals(b)
  {
    hide AllTerminals;
    AllTerminals3(a, m, b);
  }

  lemma SwapPart(a: seq<string>, m: seq<string>, n: seq<string>, b: seq<string>, x: string)
    requires multiset(n) == multiset(m) + multiset{x}
    ensures multiset(a + n + b) == multiset(a + m + b) + multiset{x}
  {
    assert multiset(a + n + b) == multiset(a) + multiset(n) + multiset(b);
    assert multiset(a + m + b) == multiset(a) + multiset(m) + multiset(b);
  }

  lemma NestedTerminals(leaf: Node, q: Request)
    requires leaf.Leaf? && Clean(q.newId)
    ensures multiset(Terminals(Nested(leaf, q))) == multiset(Terminals(leaf)) + multiset{q.newId}
  {
    PairTerminals(leaf, q);
    hide AllTerminals;
  }

  lemma MergesLeaf(node: Node, i: nat, q: Request)
    requires node.Split? && i < |node.children| && MergesAt(node, i, q)
    ensures node.children[i].Leaf?
  {
  }

  /** A split adds the new terminal once and keeps every other one. */
  lemma {:induction false} SplitAddsTerminal(node: Node, q: Request, valid: set<string>)
    requires Normal(node, valid) && q.target in Terminals(node) && Clean(q.newId)
    ensures multiset(Terminals(SplitNode(node, q).node)) == multiset(Terminals(node)) + multiset{q.newId}
    decreases node
  {
    hide *;
    match node
    case Leaf(_, _, _, _) =>
      SplitHappens(node, q, valid);
      NestedTerminals(node, q);
    case Split(_, _, children, _) =>
      var i := SplitShape(node, q, valid);
      var a, c, b := children[..i], children[i], children[i + 1..];
      CutsApart(node, i, valid);
      RowTerminals(node, a, [c], b);
      AllTerminalsOne(c);
      var next := SplitNode(node, q).node;
      if MergesAt(node, i, q) {
        MergesLeaf(node, i, q);
        LeafTerminals(c);
        PairTerminals(c, q);
        RowTerminals(next, a, Pair(c, q), b);
        SwapPart(AllTerminals(a), Terminals(c), AllTerminals(Pair(c, q)), AllTerminals(b), q.newId);
      } else {
        var s := SplitNode(c, q).node;
        SplitAddsTerminal(c, q, valid);
        AllTerminalsOne(s);
        RowTerminals(next, a, [s], b);
        SwapPart(AllTerminals(a), Terminals(c), Terminals(s), AllTerminals(b), q.newId);
      }
  }
}
