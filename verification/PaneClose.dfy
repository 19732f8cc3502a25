/** Closing a terminal, and when closing the pane just opened undoes the split. */
module PaneClose {
  import opened Strings
  import opened Sequences
  import opened Wrappers
  import opened PaneTree
  import opened PaneNormal
  import opened PaneSplit
  import opened PaneEdit

  datatype Removal = Removal(node: Option<Node>, removed: bool)

  /** The children a removal keeps, each with its own weight. */
  datatype Kept = Kept(nodes: seq<Node>, weights: seq<real>, removed: bool)

  function Min(a: int, b: int): int {
    if a < b then a else b
  }

  function RemoveFromLeaf(leaf: Node, id: string): Removal
    requires leaf.Leaf?
  {
    if id !in leaf.terminalIds then Removal(Some(leaf), false)
    else
      var next := Without(leaf.terminalIds, id);
      if next == [] then Removal(None, true)
      else
        var active := if leaf.activeTerminalId in next then leaf.activeTerminalId
                      else next[Min(IndexOf(leaf.terminalIds, id), |next| - 1)];
        Removal(Some(leaf.(terminalIds := next, activeTerminalId := active)), true)
  }

  function Regroup(id: string, direction: Direction, nodes: seq<Node>, weights: seq<real>): Option<Node> {
    if nodes == [] then None
    else if |nodes| == 1 then Some(nodes[0])
    else Some(Split(id, direction, nodes, SplitWeights(|nodes|, weights)))
  }

  function RemoveNode(node: Node, id: string): Removal
    decreases node, 0
  {
    match node
    case Leaf(_, _, _, _) => RemoveFromLeaf(node, id)
    case Split(splitId, direction, children, weights) =>
      var kept := RemoveAll(children, SplitWeights(|children|, weights), id);
      if !kept.removed then Removal(Some(node), false)
      else Removal(Regroup(splitId, direction, kept.nodes, kept.weights), true)
  }

  function RemoveAll(nodes: seq<Node>, weights: seq<real>, id: string): (kept: Kept)
    requires |weights| >= |nodes|
    ensures |kept.weights| == |kept.nodes|
    decreases nodes, 0
  {
    if nodes == [] then Kept([], [], false)
    else
      var first := RemoveNode(nodes[0], id);
      var rest := RemoveAll(nodes[1..], weights[1..], id);
      if first.node.Some? then
        Kept([first.node.value] + rest.nodes, [weights[0]] + rest.weights, first.removed || rest.removed)
      else
        Kept(rest.nodes, rest.weights, first.removed || rest.removed)
  }

  lemma {:induction false} RemoveAllConcat(a: seq<Node>, b: seq<Node>, u: seq<real>, v: seq<real>, id: string)
    requires |u| == |a| && |v| == |b|
    ensures var ra, rb := RemoveAll(a, u, id), RemoveAll(b, v, id);
            RemoveAll(a + b, u + v, id) == Kept(ra.nodes + rb.nodes, ra.weights + rb.weights, ra.removed || rb.removed)
  {
    if a == [] {
      assert a + b == b && u + v == v;
    } else {
      assert (a + b)[1..] == a[1..] + b && (u + v)[1..] == u[1..] + v;
      RemoveAllConcat(a[1..], b, u[1..], v, id);
      var first := RemoveNode(a[0], id);
      var ra, rb := RemoveAll(a[1..], u[1..], id), RemoveAll(b, v, id);
      if first.node.Some? {
        assert [first.node.value] + (ra.nodes + rb.nodes) == [first.node.value] + ra.nodes + rb.nodes;
        assert [u[0]] + (ra.weights + rb.weights) == [u[0]] + ra.weights + rb.weights;
      }
    }
  }

  lemma RemoveAllOne(node: Node, weight: real, id: string)
    ensures var r := RemoveNode(node, id);
            RemoveAll([node], [weight], id) ==
            if r.node.Some? then Kept([r.node.value], [weight], r.removed) else Kept([], [], r.removed)
  {
    assert [node][1..] == [] && [weight][1..] == [];
    assert RemoveAll([], [], id) == Kept([], [], false);
  }

  /** removeTerminalFromLayoutNode, with the arrays it fills. */
  method RemoveTerminalFromLayoutNode(node: Node, id: string) returns (result: Option<Node>, removed: bool)
    ensures Removal(result, removed) == RemoveNode(node, id)
    decreases node
  {
    if node.Leaf? {
      var r := RemoveFromLeaf(node, id);
      return r.node, r.removed;
    }
    removed := false;
    var nextChildren: seq<Node>, nextWeights: seq<real> := [], [];
    var weights := SplitWeights(|node.children|, node.weights);
    for index := 0 to |node.children|
      invariant RemoveAll(node.children[..index], weights[..index], id) == Kept(nextChildren, nextWeights, removed)
    {
      var child, childRemoved := RemoveTerminalFromLayoutNode(node.children[index], id);
      RemoveAllConcat(node.children[..index], [node.children[index]], weights[..index], [weights[index]], id);
      RemoveAllOne(node.children[index], weights[index], id);
      assert node.children[..index + 1] == node.children[..index] + [node.children[index]];
      assert weights[..index + 1] == weights[..index] + [weights[index]];
      if childRemoved {
        removed := true;
      }
      if child.Some? {
        nextChildren := nextChildren + [child.value];
        nextWeights := nextWeights + [weights[index]];
      }
    }
    assert node.children[..|node.children|] == node.children;
    assert node.children != [] ==> weights[..|node.children|] == weights;
    if !removed {
      return Some(node), false;
    }
    return Regroup(node.id, node.direction, nextChildren, nextWeights), true;
  }

  // ----- what closing leaves -----

  function NodeTerminals(node: Option<Node>): seq<string> {
    if node.Some? then Terminals(node.value) else []
  }

  lemma RemoveFromLeafFacts(leaf: Node, id: string, valid: set<string>)
    requires leaf.Leaf? && NormalLeaf(leaf, valid)
    ensures var r := RemoveFromLeaf(leaf, id);
            && (r.removed <==> id in leaf.terminalIds)
            && (!r.removed ==> r.node == Some(leaf))
            && NodeTerminals(r.node) == Without(Terminals(leaf), id)
            && (r.node.Some? ==> r.node.value.Leaf? && NormalLeaf(r.node.value, valid - {id}))
  {
    hide PaneIds, ValidPaneIds, CleanIds;
    NormalLeafFixed(leaf, valid);
    var r := RemoveFromLeaf(leaf, id);
    WithoutNoDup(leaf.terminalIds, id);
    if r.node.Some? {
      var next := r.node.value.terminalIds;
      forall k | 0 <= k < |next|
        ensures Clean(next[k])
      {
        assert next[k] in leaf.terminalIds;
      }
      NormalLeafFixed(r.node.value, valid - {id});
    }
  }

  /** Closing a terminal removes that terminal from the left-to-right order and nothing else. */
  lemma {:induction false} RemoveDropsTerminal(node: Node, id: string, valid: set<string>)
    requires Tidy(node, valid)
    ensures var r := RemoveNode(node, id);
            && (r.removed <==> id in Terminals(node))
            && (!r.removed ==> r.node == Some(node))
            && NodeTerminals(r.node) == Without(Terminals(node), id)
            && (r.node.Some? ==> Tidy(r.node.value, valid - {id}))
    decreases node, 0
  {
    hide PaneIds, CleanIds;
    match node
    case Leaf(_, _, _, _) =>
      NormalLeafFixed(node, valid);
      RemoveFromLeafFacts(node, id, valid);
    case Split(splitId, direction, children, weights) =>
      var kept := RemoveAll(children, SplitWeights(|children|, weights), id);
      RemoveAllDropsTerminal(children, SplitWeights(|children|, weights), id, valid);
      if |kept.nodes| == 1 {
        AllTerminalsOne(kept.nodes[0]);
      }
  }

  lemma {:induction false} RemoveAllDropsTerminal(nodes: seq<Node>, weights: seq<real>, id: string, valid: set<string>)
    requires |weights| == |nodes| && forall c <- nodes :: Tidy(c, valid)
    ensures var kept := RemoveAll(nodes, weights, id);
            && (kept.removed <==> id in AllTerminals(nodes))
            && (!kept.removed ==> kept.nodes == nodes && kept.weights == weights)
            && AllTerminals(kept.nodes) == Without(AllTerminals(nodes), id)
            && (forall c <- kept.nodes :: Tidy(c, valid - {id}))
    decreases nodes, 0
  {
    hide PaneIds, CleanIds, RemoveNode, Tidy, Terminals, Without;
    if nodes != [] {
      RemoveDropsTerminal(nodes[0], id, valid);
      RemoveAllDropsTerminal(nodes[1..], weights[1..], id, valid);
      WithoutConcat(Terminals(nodes[0]), AllTerminals(nodes[1..]), id);
      var first := RemoveNode(nodes[0], id).node;
      var rest := RemoveAll(nodes[1..], weights[1..], id).nodes;
      if first.Some? {
        AllTerminalsOne(first.value);
        AllTerminalsConcat([first.value], rest);
      }
    }
  }

  // ----- split, then close the new pane -----

  /** The new pane joins an existing row somewhere on the way down to the target. */
  predicate Merged(node: Node, q: Request)
    decreases node
  {
    node.Split? &&
    var i := FirstContaining(node.children, q.target);
    i < |node.children| && (MergesAt(node, i, q) || Merged(node.children[i], q))
  }

  lemma RemoveAround(a: seq<Node>, m: seq<Node>, b: seq<Node>, u: seq<real>, w: seq<real>, v: seq<real>,
                     id: string, valid: set<string>)
    requires |u| == |a| && |w| == |m| && |v| == |b|
    requires forall n <- a + b :: Tidy(n, valid)
    requires id !in AllTerminals(a) && id !in AllTerminals(b)
    ensures var kept := RemoveAll(m, w, id);
            RemoveAll(a + m + b, u + w + v, id) == Kept(a + kept.nodes + b, u + kept.weights + v, kept.removed)
  {
    forall n | n in a || n in b
      ensures Tidy(n, valid)
    {
      assert n in a + b;
    }
    RemoveAllConcat(a + m, b, u + w, v, id);
    RemoveAllConcat(a, m, u, w, id);
    RemoveAllDropsTerminal(a, u, id, valid);
    RemoveAllDropsTerminal(b, v, id, valid);
  }

  lemma RemoveFromPair(leaf: Node, q: Request, w: real, valid: set<string>)
    requires leaf.Leaf? && NormalLeaf(leaf, valid) && Clean(q.newId) && q.newId !in leaf.terminalIds
    ensures RemoveAll(Pair(leaf, q), [w, w], q.newId) == Kept([leaf], [w], true)
  {
    var pair := Pair(leaf, q);
    assert pair == [pair[0]] + [pair[1]] && [w, w] == [w] + [w];
    RemoveAllConcat([pair[0]], [pair[1]], [w], [w], q.newId);
    RemoveAllOne(pair[0], w, q.newId);
    RemoveAllOne(pair[1], w, q.newId);
    assert Without([q.newId], q.newId) == [] by {
      assert [q.newId][1..] == [];
    }
  }

  lemma SiblingsLack(node: Node, i: nat, id: string)
    requires node.Split? && i < |node.children| && id !in AllTerminals(node.children)
    ensures id !in AllTerminals(node.children[..i]) && id !in AllTerminals(node.children[i + 1..])
    ensures id !in Terminals(node.children[i])
  {
    assert node.children == node.children[..i] + [node.children[i]] + node.children[i + 1..];
    AllTerminals3(node.children[..i], [node.children[i]], node.children[i + 1..]);
    AllTerminalsOne(node.children[i]);
  }

  /**
   * Closing the terminal just opened gives back the tree as it was exactly when the new pane was
   * nested; a pane merged into a row leaves its neighbour with half of the weight it had.
   */
  lemma {:induction false} CloseUndoesSplit(node: Node, q: Request, valid: set<string>)
    requires Normal(node, valid) && q.target in Terminals(node)
    requires Clean(q.newId) && q.newId !in Terminals(node)
    ensures RemoveNode(SplitNode(node, q).node, q.newId) == Removal(Some(node), true) <==> !Merged(node, q)
    ensures RemoveNode(SplitNode(node, q).node, q.newId).removed
    ensures RemoveNode(SplitNode(node, q).node, q.newId).node.Some?
    decreases node
  {
    hide PaneIds, CleanIds, SplitNode;
    match node
    case Leaf(_, _, _, _) =>
      NormalLeafFixed(node, valid);
      SplitHappens(node, q, valid);
      assert SplitWeights(2, [1.0, 1.0]) == [1.0, 1.0];
      RemoveFromPair(node, q, 1.0, valid);
    case Split(_, _, _, _) =>
      var i := SplitShape(node, q, valid);
      SiblingsLack(node, i, q.newId);
      if MergesAt(node, i, q) {
        CloseMerged(node, i, q, valid);
      } else {
        CutsApart(node, i, valid);
        CloseUndoesSplit(node.children[i], q, valid);
        CloseNested(node, i, q, SplitNode(node.children[i], q).node, valid);
      }
  }

  /** Two panes side by side, the left one split to its right and the new pane closed: the tree does not come back. */
  lemma MergedSplitStays()
    ensures exists node: Node, q: Request, valid: set<string> ::
              && Normal(node, valid) && q.target in Terminals(node) && Clean(q.newId) && q.newId !in Terminals(node)
              && RemoveNode(SplitNode(node, q).node, q.newId) != Removal(Some(node), true)
  {
    hide *;
    var a, b := Leaf("pane-a", ["a"], "a", ""), Leaf("pane-b", ["b"], "b", "");
    var node, q, valid := Split("row", Horizontal, [a, b], [1.0, 1.0]), Request("a", "n", Right, "split-n"), {"a", "b"};
    CleanNames();
    PlainLeaf(a, "a", valid);
    PlainLeaf(b, "b", valid);
    PlainRow("row", a, b, valid);
    RowMerges(node, q);
    assert "n" !in ["a"] + ["b"];
    CloseUndoesSplit(node, q, valid);
  }

  lemma CleanNames()
    ensures Clean("a") && Clean("b") && Clean("n") && Clean("pane-a") && Clean("pane-b")
  {
  }

  lemma PlainRow(id: string, a: Node, b: Node, valid: set<string>)
    requires a.Leaf? && b.Leaf? && Normal(a, valid) && Normal(b, valid)
    ensures var row := Split(id, Horizontal, [a, b], [1.0, 1.0]); Normal(row, valid) && Terminals(row) == Terminals(a) + Terminals(b)
  {
    hide PaneIds, NormalLeaf;
    AllTerminalsOne(b);
    assert [a, b][1..] == [b];
  }

  lemma RowMerges(row: Node, q: Request)
    requires row.Split? && row.direction == Horizontal && |row.children| == 2 && row.children[0].Leaf?
    requires q.position == Right && q.target in Terminals(row.children[0])
    ensures Merged(row, q)
  {
    hide PaneIds;
  }

  lemma PlainLeaf(leaf: Node, id: string, valid: set<string>)
    requires leaf.Leaf? && leaf.terminalIds == [id] && leaf.activeTerminalId == id && leaf.terminalId == ""
    requires Clean(id) && Clean(leaf.paneId) && id in valid
    ensures Normal(leaf, valid) && Terminals(leaf) == [id]
  {
    NormalLeafFixed(leaf, valid);
  }

  /** Closing the new terminal in a merged row: the pair is one pane again, with half the weight. */
  lemma CloseInRow(a: seq<Node>, c: Node, b: seq<Node>, u: seq<real>, w: real, v: seq<real>, q: Request, valid: set<string>)
    requires |u| == |a| && |v| == |b| && c.Leaf?
    requires forall n <- a + [c] + b :: Normal(n, valid)
    requires Clean(q.newId) && q.newId !in AllTerminals(a + [c] + b)
    ensures RemoveAll(a + Pair(c, q) + b, u + [w / 2.0, w / 2.0] + v, q.newId)
         == Kept(a + [c] + b, u + [w / 2.0] + v, true)
  {
    hide PaneIds, CleanIds, RemoveAll, AllTerminals, Tidy;
    forall n <- a + b
      ensures Tidy(n, valid)
    {
      assert n in a + [c] + b;
      NormalIsTidy(n, valid);
    }
    assert (a + [c] + b)[|a|] == c;
    assert Normal(c, valid);
    AllTerminals3(a, [c], b);
    AllTerminalsOne(c);
    NormalLeafFixed(c, valid);
    hide Normal, NormalLeaf;
    RemoveFromPair(c, q, w / 2.0, valid);
    RemoveAround(a, Pair(c, q), b, u, [w / 2.0, w / 2.0], v, q.newId, valid);
  }

  lemma CloseMergedRow(id: string, direction: Direction, a: seq<Node>, c: Node, b: seq<Node>,
                       u: seq<real>, w: real, v: seq<real>, q: Request, valid: set<string>)
    requires |u| == |a| && |v| == |b| && |a| + |b| >= 1 && Positive(u) && Positive(v) && w > 0.0 && c.Leaf?
    requires forall n <- a + [c] + b :: Normal(n, valid)
    requires Clean(q.newId) && q.newId !in AllTerminals(a + [c] + b)
    ensures RemoveNode(Split(id, direction, a + Pair(c, q) + b, u + [w / 2.0, w / 2.0] + v), q.newId)
         == Removal(Some(Split(id, direction, a + [c] + b, u + [w / 2.0] + v)), true)
  {
    hide *;
    PairLength(c, q);
    EvenPair(w);
    CloseInRow(a, c, b, u, w, v, q, valid);
    PositiveAround(u, [w / 2.0, w / 2.0], v);
    PositiveAround(u, [w / 2.0], v);
    var nodes, weights := a + [c] + b, u + [w / 2.0] + v;
    RemoveKeepsSplit(Split(id, direction, a + Pair(c, q) + b, u + [w / 2.0, w / 2.0] + v), q.newId, nodes, weights);
  }

  /** A merged pane: the closed terminal's share of the row does not come back. */
  lemma CloseMerged(node: Node, i: nat, q: Request, valid: set<string>)
    requires Normal(node, valid) && node.Split? && i < |node.children| && node.children[i].Leaf?
    requires Clean(q.newId) && q.newId !in AllTerminals(node.children)
    ensures var merged := Split(node.id, node.direction, node.children[..i] + Pair(node.children[i], q) + node.children[i + 1..],
                                node.weights[..i] + EvenWeights(node.weights[i], 2) + node.weights[i + 1..]);
            RemoveNode(merged, q.newId) == Removal(Some(node.(weights := node.weights[i := node.weights[i] / 2.0])), true)
  {
    hide *;
    CutsApart(node, i, valid);
    CloseMergedRow(node.id, node.direction, node.children[..i], node.children[i], node.children[i + 1..],
                   node.weights[..i], node.weights[i], node.weights[i + 1..], q, valid);
    var w := node.weights[i];
    assert node.weights[i := w / 2.0] == node.weights[..i] + [w / 2.0] + node.weights[i + 1..];
    EvenPair(w);
  }

  lemma RemoveKeepsSplit(split: Node, id: string, nodes: seq<Node>, weights: seq<real>)
    requires split.Split? && |split.weights| == |split.children| >= 1 && Positive(split.weights)
    requires RemoveAll(split.children, split.weights, id) == Kept(nodes, weights, true)
    requires |nodes| == |weights| >= 2 && Positive(weights)
    ensures RemoveNode(split, id) == Removal(Some(Split(split.id, split.direction, nodes, weights)), true)
  {
    assert |weights| == |nodes|;
  }

  /** A nested pane: the parent is restored exactly when the child is. */
  lemma CloseNested(node: Node, i: nat, q: Request, split: Node, valid: set<string>)
    requires Normal(node, valid) && node.Split? && i < |node.children|
    requires q.newId !in AllTerminals(node.children)
    requires RemoveNode(split, q.newId).removed && RemoveNode(split, q.newId).node.Some?
    ensures var nested := Split(node.id, node.direction, node.children[..i] + [split] + node.children[i + 1..], node.weights);
            var r := RemoveNode(split, q.newId).node.value;
            RemoveNode(nested, q.newId)
            == Removal(Some(node.(children := node.children[..i] + [r] + node.children[i + 1..])), true)
    ensures var r := RemoveNode(split, q.newId).node.value;
            node.children[..i] + [r] + node.children[i + 1..] == node.children <==> r == node.children[i]
  {
    hide PaneIds, CleanIds;
    var a, b := node.children[..i], node.children[i + 1..];
    var u, w, v := node.weights[..i], node.weights[i], node.weights[i + 1..];
    CutsApart(node, i, valid);
    SiblingsLack(node, i, q.newId);
    forall n <- a + b
      ensures Tidy(n, valid)
    {
      NormalIsTidy(n, valid);
    }
    RemoveAllOne(split, w, q.newId);
    RemoveAround(a, [split], b, u, [w], v, q.newId, valid);
    var r := RemoveNode(split, q.newId).node.value;
    var restored := a + [r] + b;
    assert restored[i] == r;
    if r == node.children[i] {
      assert restored == node.children;
    }
  }
}
