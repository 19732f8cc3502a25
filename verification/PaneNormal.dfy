/** What the sanitiser guarantees: its results are exactly its fixed points, and it only drops terminals. */
module PaneNormal {
  import opened Wrappers
  import opened PaneTree

  predicate NormalUnder(nodes: seq<Node>, direction: Direction, valid: set<string>) {
    forall c <- nodes :: Normal(c, valid) && !SameDirection(c, direction)
  }

  lemma SharesPositive(split: Node, weight: real)
    requires split.Split? && weight > 0.0
    ensures forall j :: 0 <= j < |split.children| ==> Share(split, weight, j) > 0.0
  {
  }

  lemma SpreadNormal(direction: Direction, child: Node, weight: real, valid: set<string>)
    requires Normal(child, valid) && weight > 0.0
    ensures var r := Spread(direction, child, weight);
            r.0 != [] && NormalUnder(r.0, direction, valid) && Positive(r.1)
  {
    if SameDirection(child, direction) {
      SharesPositive(child, weight);
    }
  }

  lemma {:induction false} FlattenNormal(direction: Direction, children: seq<Node>, weights: seq<real>, valid: set<string>)
    requires |weights| == |children| && Positive(weights)
    requires forall c <- children :: Normal(c, valid)
    ensures var r := Flatten(direction, children, weights);
            |r.0| >= |children| && NormalUnder(r.0, direction, valid) && Positive(r.1)
  {
    if children != [] {
      SpreadNormal(direction, children[0], weights[0], valid);
      FlattenNormal(direction, children[1..], weights[1..], valid);
    }
  }

  lemma {:induction false} FlattenNothing(direction: Direction, children: seq<Node>, weights: seq<real>)
    requires |weights| == |children|
    requires forall c <- children :: !SameDirection(c, direction)
    ensures Flatten(direction, children, weights) == (children, weights)
  {
    if children != [] {
      FlattenNothing(direction, children[1..], weights[1..]);
      assert [children[0]] + children[1..] == children && [weights[0]] + weights[1..] == weights;
    }
  }

  lemma {:induction false} SanitizeIsNormal(node: Node, valid: set<string>)
    ensures var r := Sanitize(node, valid); r.Some? ==> Normal(r.value, valid)
    decreases node, 0
  {
    match node
    case Leaf(_, _, _, _) =>
      if SanitizeLeaf(node, valid).Some? {
        SanitizeLeafNormal(node, valid);
      }
    case Split(id, direction, children, weights) =>
      SanitizeAllNormal(children, valid);
      RebuildNormal(id, direction, SanitizeAll(children, valid), weights, valid);
  }

  lemma {:induction false} SanitizeAllNormal(nodes: seq<Node>, valid: set<string>)
    ensures forall c <- SanitizeAll(nodes, valid) :: Normal(c, valid)
    decreases nodes, 0
  {
    if nodes != [] {
      SanitizeIsNormal(nodes[0], valid);
      SanitizeAllNormal(nodes[1..], valid);
    }
  }

  lemma RebuildNormal(id: string, direction: Direction, kept: seq<Node>, weights: seq<real>, valid: set<string>)
    requires forall c <- kept :: Normal(c, valid)
    ensures var r := Rebuild(id, direction, kept, weights);
            && (r.None? <==> kept == [])
            && (r.Some? ==> Normal(r.value, valid))
  {
    if |kept| >= 2 {
      FlattenNormal(direction, kept, SplitWeights(|kept|, weights), valid);
    }
  }

  lemma {:induction false} NormalFixed(node: Node, valid: set<string>)
    requires Normal(node, valid)
    ensures Sanitize(node, valid) == Some(node)
    decreases node, 0
  {
    match node
    case Leaf(_, _, _, _) => NormalLeafFixed(node, valid);
    case Split(id, direction, children, weights) =>
      NormalAllFixed(children, valid);
      FlattenNothing(direction, children, weights);
  }

  lemma {:induction false} NormalAllFixed(nodes: seq<Node>, valid: set<string>)
    requires forall c <- nodes :: Normal(c, valid)
    ensures SanitizeAll(nodes, valid) == nodes
    decreases nodes, 0
  {
    if nodes != [] {
      NormalFixed(nodes[0], valid);
      NormalAllFixed(nodes[1..], valid);
    }
  }

  /** The sanitiser's fixed points are the normal trees, and one pass reaches one. */
  lemma SanitizeFixedPoints(node: Node, valid: set<string>)
    ensures Sanitize(node, valid) == Some(node) <==> Normal(node, valid)
    ensures var r := Sanitize(node, valid); r.Some? ==> Sanitize(r.value, valid) == r
  {
    SanitizeIsNormal(node, valid);
    var r := Sanitize(node, valid);
    if r.Some? {
      NormalFixed(r.value, valid);
    }
    if Normal(node, valid) {
      NormalFixed(node, valid);
    }
  }

  // ----- terminal order -----

  /** The valid terminals of the stored panes, left to right, as each pane alone would keep them. */
  function ValidTerminals(node: Node, valid: set<string>): seq<string>
    decreases node, 0
  {
    match node
    case Leaf(_, _, _, _) => ValidPaneIds(node, valid)
    case Split(_, _, children, _) => AllValidTerminals(children, valid)
  }

  function AllValidTerminals(nodes: seq<Node>, valid: set<string>): seq<string>
    decreases nodes, 0
  {
    if nodes == [] then [] else ValidTerminals(nodes[0], valid) + AllValidTerminals(nodes[1..], valid)
  }

  lemma {:induction false} AllTerminalsConcat(a: seq<Node>, b: seq<Node>)
    ensures AllTerminals(a + b) == AllTerminals(a) + AllTerminals(b)
  {
    if a == [] {
      assert a + b == b;
    } else {
      assert (a + b)[1..] == a[1..] + b;
      AllTerminalsConcat(a[1..], b);
    }
  }

  lemma AllTerminalsOne(node: Node)
    ensures AllTerminals([node]) == Terminals(node)
  {
    assert [node][1..] == [];
  }

  lemma {:induction false} FlattenKeepsTerminals(direction: Direction, children: seq<Node>, weights: seq<real>)
    requires |weights| == |children|
    ensures AllTerminals(Flatten(direction, children, weights).0) == AllTerminals(children)
  {
    if children != [] {
      var first := Spread(direction, children[0], weights[0]).0;
      AllTerminalsConcat(first, Flatten(direction, children[1..], weights[1..]).0);
      AllTerminalsOne(children[0]);
      FlattenKeepsTerminals(direction, children[1..], weights[1..]);
    }
  }

  /** Sanitising keeps the valid terminals of every pane in their left-to-right order, and nothing else. */
  lemma {:induction false} SanitizeKeepsOrder(node: Node, valid: set<string>)
    ensures var r := Sanitize(node, valid);
            ValidTerminals(node, valid) == if r.Some? then Terminals(r.value) else []
    decreases node, 0
  {
    match node
    case Leaf(_, _, _, _) =>
      if SanitizeLeaf(node, valid).Some? {
        SanitizeLeafNormal(node, valid);
        NormalLeafFixed(SanitizeLeaf(node, valid).value, valid);
      }
    case Split(id, direction, children, weights) =>
      SanitizeAllKeepsOrder(children, valid);
      var kept := SanitizeAll(children, valid);
      if |kept| == 1 {
        AllTerminalsOne(kept[0]);
      } else if |kept| >= 2 {
        FlattenKeepsTerminals(direction, kept, SplitWeights(|kept|, weights));
      }
  }

  lemma {:induction false} SanitizeAllKeepsOrder(nodes: seq<Node>, valid: set<string>)
    ensures AllTerminals(SanitizeAll(nodes, valid)) == AllValidTerminals(nodes, valid)
    decreases nodes, 0
  {
    if nodes != [] {
      SanitizeKeepsOrder(nodes[0], valid);
      SanitizeAllKeepsOrder(nodes[1..], valid);
      var first := Sanitize(nodes[0], valid);
      if first.Some? {
        AllTerminalsOne(first.value);
        AllTerminalsConcat([first.value], SanitizeAll(nodes[1..], valid));
      } else {
        assert [] + SanitizeAll(nodes[1..], valid) == SanitizeAll(nodes[1..], valid);
      }
    }
  }

  /** On a tidy tree the valid terminals are the listed ones that are valid. */
  lemma {:induction false} TidyTerminals(node: Node, valid: set<string>)
    requires Tidy(node, valid)
    ensures ValidTerminals(node, valid) == Terminals(node) != []
    ensures AllClean(Terminals(node)) && forall id <- Terminals(node) :: id in valid
    decreases node, 0
  {
    match node
    case Leaf(_, _, _, _) => NormalLeafFixed(node, valid);
    case Split(_, _, children, _) => TidyAllTerminals(children, valid);
  }

  lemma {:induction false} TidyAllTerminals(nodes: seq<Node>, valid: set<string>)
    requires forall c <- nodes :: Tidy(c, valid)
    ensures AllValidTerminals(nodes, valid) == AllTerminals(nodes)
    ensures nodes != [] ==> AllTerminals(nodes) != []
    ensures AllClean(AllTerminals(nodes)) && forall id <- AllTerminals(nodes) :: id in valid
    decreases nodes, 0
  {
    if nodes != [] {
      TidyTerminals(nodes[0], valid);
      TidyAllTerminals(nodes[1..], valid);
    }
  }

  /** A tidy tree survives whole: same terminals, in normal form. */
  lemma SanitizeTidy(node: Node, valid: set<string>)
    requires Tidy(node, valid)
    ensures var r := Sanitize(node, valid);
            r.Some? && Normal(r.value, valid) && Terminals(r.value) == Terminals(node)
  {
    TidyTerminals(node, valid);
    SanitizeKeepsOrder(node, valid);
    SanitizeIsNormal(node, valid);
  }
}
