/** The terminal pane tree of terminalPaneLayout.ts and the sanitiser that repairs stored trees. */
module PaneTree {
  import opened Strings
  import opened Sequences
  import opened Wrappers

  const DEFAULT_TERMINAL_ID := "default"

  datatype Direction = Horizontal | Vertical

  /**
   * A stored node. An absent string is "", an absent list is [], and a weight that is not a
   * finite number is 0.0, which the source replaces by 1 just the same. The last field of a
   * leaf is the single id that old records hold instead of a list.
   */
  datatype Node =
    | Leaf(paneId: string, terminalIds: seq<string>, activeTerminalId: string, terminalId: string)
    | Split(id: string, direction: Direction, children: seq<Node>, weights: seq<real>)

  // ----- ids of a pane -----

  function TrimAll(ids: seq<string>): seq<string> {
    seq(|ids|, i requires 0 <= i < |ids| => Trim(ids[i]))
  }

  function CleanIds(ids: seq<string>): seq<string> {
    Without(Dedup(TrimAll(ids)), "")
  }

  predicate AllClean(ids: seq<string>) {
    forall i :: 0 <= i < |ids| ==> Clean(ids[i])
  }

  function PaneIds(leaf: Node): seq<string>
    requires leaf.Leaf?
  {
    var ids := CleanIds(leaf.terminalIds);
    if ids != [] then ids else CleanIds([leaf.terminalId])
  }

  function ValidPaneIds(leaf: Node, valid: set<string>): seq<string>
    requires leaf.Leaf?
  {
    var ids := Restrict(CleanIds(leaf.terminalIds), valid);
    if ids != [] then ids else Restrict(CleanIds([leaf.terminalId]), valid)
  }

  /** All terminals of a tree, left to right (collectTerminalIdsFromLayout). */
  function Terminals(node: Node): seq<string>
    decreases node, 0
  {
    match node
    case Leaf(_, _, _, _) => PaneIds(node)
    case Split(_, _, children, _) => AllTerminals(children)
  }

  function AllTerminals(nodes: seq<Node>): seq<string>
    decreases nodes, 0
  {
    if nodes == [] then [] else Terminals(nodes[0]) + AllTerminals(nodes[1..])
  }

  function NewLeaf(terminalId: string): Node {
    Leaf("pane-" + terminalId, [terminalId], terminalId, "")
  }

  // ----- weights -----

  function WeightAt(weights: seq<real>, i: nat): (w: real)
    ensures w > 0.0
  {
    if i < |weights| && weights[i] > 0.0 then weights[i] else 1.0
  }

  predicate Positive(weights: seq<real>) {
    forall i :: 0 <= i < |weights| ==> weights[i] > 0.0
  }

  /** normalizeSplitWeights: one positive weight per child, and [1] when there is no child. */
  function SplitWeights(count: nat, weights: seq<real>): (ws: seq<real>)
    ensures count > 0 ==> |ws| == count
    ensures Positive(ws)
    ensures |weights| == count && count > 0 && Positive(weights) ==> ws == weights
  {
    if count == 0 then [1.0] else seq(count, i requires 0 <= i < count => WeightAt(weights, i))
  }

  function Sum(weights: seq<real>): real {
    if weights == [] then 0.0 else weights[0] + Sum(weights[1..])
  }

  lemma {:induction false} SumPositive(weights: seq<real>)
    requires Positive(weights)
    ensures Sum(weights) >= 0.0
    ensures weights != [] ==> Sum(weights) > 0.0
  {
    if weights != [] {
      SumPositive(weights[1..]);
    }
  }

  lemma {:induction false} SumConcat(a: seq<real>, b: seq<real>)
    ensures Sum(a + b) == Sum(a) + Sum(b)
  {
    if a == [] {
      assert a + b == b;
    } else {
      assert (a + b)[1..] == a[1..] + b;
      SumConcat(a[1..], b);
    }
  }

  // ----- flattening one level -----

  predicate SameDirection(node: Node, direction: Direction) {
    node.Split? && node.direction == direction
  }

  function SafeTotal(split: Node): (total: real)
    requires split.Split?
    ensures split.children != [] ==> total > 0.0
  {
    var total := Sum(seq(|split.weights|, i requires 0 <= i < |split.weights| => WeightAt(split.weights, i)));
    if total > 0.0 then total else |split.children| as real
  }

  function Share(split: Node, weight: real, j: nat): real
    requires split.Split? && j < |split.children|
  {
    weight * WeightAt(split.weights, j) / SafeTotal(split)
  }

  /** What one child contributes: itself, or its own children with its weight shared among them. */
  function Spread(direction: Direction, child: Node, weight: real): (r: (seq<Node>, seq<real>))
    ensures |r.0| == |r.1|
  {
    if SameDirection(child, direction) then
      (child.children,
       seq(|child.children|, j requires 0 <= j < |child.children| =>
         Share(child, weight, j)))
    else
      ([child], [weight])
  }

  function Flatten(direction: Direction, children: seq<Node>, weights: seq<real>): (r: (seq<Node>, seq<real>))
    requires |weights| == |children|
    ensures |r.0| == |r.1|
  {
    if children == [] then ([], [])
    else
      var first := Spread(direction, children[0], weights[0]);
      var rest := Flatten(direction, children[1..], weights[1..]);
      (first.0 + rest.0, first.1 + rest.1)
  }

  lemma {:induction false} FlattenConcat(direction: Direction, a: seq<Node>, b: seq<Node>, u: seq<real>, v: seq<real>)
    requires |u| == |a| && |v| == |b|
    ensures Flatten(direction, a + b, u + v).0 == Flatten(direction, a, u).0 + Flatten(direction, b, v).0
    ensures Flatten(direction, a + b, u + v).1 == Flatten(direction, a, u).1 + Flatten(direction, b, v).1
  {
    if a == [] {
      assert a + b == b && u + v == v;
    } else {
      assert (a + b)[1..] == a[1..] + b && (u + v)[1..] == u[1..] + v;
      FlattenConcat(direction, a[1..], b, u[1..], v);
      var first := Spread(direction, a[0], u[0]);
      var rest := Flatten(direction, a[1..], u[1..]);
      var tail := Flatten(direction, b, v);
      assert (first.0 + rest.0) + tail.0 == first.0 + (rest.0 + tail.0);
      assert (first.1 + rest.1) + tail.1 == first.1 + (rest.1 + tail.1);
      assert (a + b)[0] == a[0] && (u + v)[0] == u[0];
    }
  }

  lemma FlattenOne(direction: Direction, child: Node, weight: real)
    ensures Flatten(direction, [child], [weight]) == Spread(direction, child, weight)
  {
    var first := Spread(direction, child, weight);
    assert Flatten(direction, [], []) == ([], []);
    assert [child][1..] == [] && [weight][1..] == [];
    assert Flatten(direction, [child], [weight]) == (first.0 + [], first.1 + []);
    assert first.0 + [] == first.0 && first.1 + [] == first.1;
  }

  lemma FlattenNone(direction: Direction)
    ensures Flatten(direction, [], []) == ([], [])
  {
  }

  lemma SpreadIs(direction: Direction, child: Node, weight: real)
    ensures var r := Spread(direction, child, weight);
            if SameDirection(child, direction) then
              r.0 == child.children && |r.1| == |child.children|
              && forall j :: 0 <= j < |child.children| ==> r.1[j] == Share(child, weight, j)
            else r == ([child], [weight])
  {
  }

  /** flattenSplitChildren, with the two arrays it fills. Missing weights count as 1. */
  method FlattenSplitChildren(direction: Direction, children: seq<Node>, weights: seq<real>)
    returns (nextChildren: seq<Node>, nextWeights: seq<real>)
    ensures var aligned := seq(|children|, i requires 0 <= i < |children| => WeightAt(weights, i));
            (nextChildren, nextWeights) == Flatten(direction, children, aligned)
  {
    hide Flatten, Spread;
    nextChildren, nextWeights := [], [];
    ghost var aligned := seq(|children|, i requires 0 <= i < |children| => WeightAt(weights, i));
    FlattenNone(direction);
    for index := 0 to |children|
      invariant (nextChildren, nextWeights) == Flatten(direction, children[..index], aligned[..index])
    {
      var child := children[index];
      var childWeight := WeightAt(weights, index);
      FlattenConcat(direction, children[..index], [child], aligned[..index], [childWeight]);
      assert children[..index + 1] == children[..index] + [child];
      assert aligned[..index + 1] == aligned[..index] + [childWeight];
      FlattenOne(direction, child, childWeight);
      SpreadIs(direction, child, childWeight);
      if SameDirection(child, direction) {
        ghost var c0, w0 := nextChildren, nextWeights;
        ghost var share := Spread(direction, child, childWeight).1;
        for nested := 0 to |child.children|
          invariant nextChildren == c0 + child.children[..nested]
          invariant nextWeights == w0 + share[..nested]
        {
          nextChildren := nextChildren + [child.children[nested]];
          assert share[..nested + 1] == share[..nested] + [Share(child, childWeight, nested)];
          nextWeights := nextWeights + [Share(child, childWeight, nested)];
        }
        assert share[..|child.children|] == share && child.children[..|child.children|] == child.children;
      } else {
        nextChildren := nextChildren + [child];
        nextWeights := nextWeights + [childWeight];
      }
    }
    assert children[..|children|] == children && aligned[..|children|] == aligned;
  }

  // ----- the sanitiser -----

  function SanitizeLeaf(leaf: Node, valid: set<string>): Option<Node>
    requires leaf.Leaf?
  {
    var ids := ValidPaneIds(leaf, valid);
    if ids == [] then None
    else
      var stored := Trim(leaf.activeTerminalId);
      var active := if stored in ids then stored else ids[0];
      var paneId := Trim(leaf.paneId);
      Some(Leaf(if paneId != "" then paneId else "pane-" + active, ids, active, ""))
  }

  function Sanitize(node: Node, valid: set<string>): Option<Node>
    decreases node, 0
  {
    match node
    case Leaf(_, _, _, _) => SanitizeLeaf(node, valid)
    case Split(id, direction, children, weights) => Rebuild(id, direction, SanitizeAll(children, valid), weights)
  }

  function SanitizeAll(nodes: seq<Node>, valid: set<string>): seq<Node>
    decreases nodes, 0
  {
    if nodes == [] then []
    else
      (match Sanitize(nodes[0], valid) case None => [] case Some(n) => [n]) + SanitizeAll(nodes[1..], valid)
  }

  /** The split that remains of the surviving children: none, the only child, or a flat split. */
  function Rebuild(id: string, direction: Direction, kept: seq<Node>, weights: seq<real>): Option<Node> {
    if kept == [] then None
    else if |kept| == 1 then Some(kept[0])
    else
      var flat := Flatten(direction, kept, SplitWeights(|kept|, weights));
      Some(Split(id, direction, flat.0, SplitWeights(|flat.0|, flat.1)))
  }

  // ----- the normal form -----

  predicate NormalLeaf(leaf: Node, valid: set<string>)
    requires leaf.Leaf?
  {
    && leaf.terminalIds != [] && NoDup(leaf.terminalIds) && AllClean(leaf.terminalIds)
    && (forall id <- leaf.terminalIds :: id in valid)
    && leaf.activeTerminalId in leaf.terminalIds
    && Clean(leaf.paneId) && leaf.terminalId == ""
  }

  /** Every leaf is a proper pane; splits have children but need not be flat. */
  predicate Tidy(node: Node, valid: set<string>)
    decreases node
  {
    match node
    case Leaf(_, _, _, _) => NormalLeaf(node, valid)
    case Split(_, _, children, _) => children != [] && forall c <- children :: Tidy(c, valid)
  }

  /** Tidy, at least two children per split, positive aligned weights, no split under a split of its own direction. */
  predicate Normal(node: Node, valid: set<string>)
    decreases node
  {
    match node
    case Leaf(_, _, _, _) => NormalLeaf(node, valid)
    case Split(_, direction, children, weights) =>
      && |children| >= 2 && |weights| == |children|
      && Positive(weights)
      && forall c <- children :: Normal(c, valid) && !SameDirection(c, direction)
  }

  lemma {:induction false} NormalIsTidy(node: Node, valid: set<string>)
    requires Normal(node, valid)
    ensures Tidy(node, valid)
    decreases node
  {
    if node.Split? {
      forall c <- node.children
        ensures Tidy(c, valid)
      {
        NormalIsTidy(c, valid);
      }
    }
  }

  lemma {:induction false} NormalMonotone(node: Node, valid: set<string>, more: set<string>)
    requires Normal(node, valid) && valid <= more
    ensures Normal(node, more)
    decreases node
  {
    if node.Split? {
      forall c <- node.children
        ensures Normal(c, more)
      {
        NormalMonotone(c, valid, more);
      }
    }
  }

  // ----- cleaning ids -----

  lemma TrimAllClean(ids: seq<string>)
    requires AllClean(ids)
    ensures TrimAll(ids) == ids
  {
    forall i | 0 <= i < |ids|
      ensures TrimAll(ids)[i] == ids[i]
    {
      TrimIsTrimmed(ids[i]);
    }
  }

  lemma CleanIdsAreClean(ids: seq<string>)
    ensures NoDup(CleanIds(ids)) && AllClean(CleanIds(ids))
    ensures NoDup(ids) && AllClean(ids) ==> CleanIds(ids) == ids
  {
    var trimmed := TrimAll(ids);
    WithoutNoDup(Dedup(trimmed), "");
    var r := CleanIds(ids);
    forall k | 0 <= k < |r|
      ensures Clean(r[k])
    {
      assert r[k] in Dedup(trimmed) && r[k] in trimmed;
      var i :| 0 <= i < |ids| && r[k] == trimmed[i];
      TrimIsTrimmed(ids[i]);
    }
    if NoDup(ids) && AllClean(ids) {
      TrimAllClean(ids);
      assert "" !in ids;
    }
  }

  lemma CleanBlank()
    ensures CleanIds([""]) == []
  {
    assert TrimAll([""]) == [""];
    assert Dedup([""]) == [""];
    assert Without([""], "") == Without([""][1..], "");
  }

  lemma ValidPaneIdsAreClean(leaf: Node, valid: set<string>)
    requires leaf.Leaf?
    ensures var ids := ValidPaneIds(leaf, valid); NoDup(ids) && AllClean(ids) && forall id <- ids :: id in valid
  {
    var ids := ValidPaneIds(leaf, valid);
    CleanIdsAreClean(leaf.terminalIds);
    CleanIdsAreClean([leaf.terminalId]);
    RestrictNoDup(CleanIds(leaf.terminalIds), valid);
    RestrictNoDup(CleanIds([leaf.terminalId]), valid);
    forall i | 0 <= i < |ids|
      ensures Clean(ids[i])
    {
      assert ids[i] in CleanIds(leaf.terminalIds) || ids[i] in CleanIds([leaf.terminalId]);
    }
  }

  lemma SanitizeLeafNormal(leaf: Node, valid: set<string>)
    requires leaf.Leaf? && SanitizeLeaf(leaf, valid).Some?
    ensures var r := SanitizeLeaf(leaf, valid).value;
            r.Leaf? && NormalLeaf(r, valid) && r.terminalIds == ValidPaneIds(leaf, valid)
  {
    ValidPaneIdsAreClean(leaf, valid);
    TrimIsTrimmed(leaf.paneId);
    var r := SanitizeLeaf(leaf, valid).value;
    var k :| 0 <= k < |r.terminalIds| && r.terminalIds[k] == r.activeTerminalId;
    PrefixIsClean("pane-", r.activeTerminalId);
  }

  lemma NormalLeafFixed(leaf: Node, valid: set<string>)
    requires leaf.Leaf? && NormalLeaf(leaf, valid)
    ensures PaneIds(leaf) == leaf.terminalIds == ValidPaneIds(leaf, valid)
    ensures SanitizeLeaf(leaf, valid) == Some(leaf)
  {
    CleanIdsAreClean(leaf.terminalIds);
    TrimIsTrimmed(leaf.activeTerminalId);
    TrimIsTrimmed(leaf.paneId);
  }
}
