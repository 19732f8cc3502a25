/** What an edit does to the picture: which pane changes, and that nothing else does. */
module PaneEffects {
  import opened PaneTree
  import opened PaneGeometry
  import opened PaneSplit
  import opened PaneUpdate

  // ----- a new tab, the visible tab -----

  /** Every pane listing the terminal is edited; all keep their place. */
  function EditPanes(panes: seq<Pane>, id: string, edit: LeafEdit): (r: seq<Pane>)
    ensures |r| == |panes|
    ensures forall i :: 0 <= i < |panes| ==> r[i].rect == panes[i].rect
    ensures forall i :: 0 <= i < |panes| ==>
              r[i].leaf == if panes[i].leaf.Leaf? && id in panes[i].leaf.terminalIds then EditLeaf(panes[i].leaf, id, edit) else panes[i].leaf
  {
    seq(|panes|, i requires 0 <= i < |panes| =>
      var leaf := panes[i].leaf;
      Pane(if leaf.Leaf? && id in leaf.terminalIds then EditLeaf(leaf, id, edit) else leaf, panes[i].rect))
  }

  lemma EditPanesConcat(a: seq<Pane>, b: seq<Pane>, id: string, edit: LeafEdit)
    ensures EditPanes(a + b, id, edit) == EditPanes(a, id, edit) + EditPanes(b, id, edit)
  {
  }

  /** Adding a tab to a pane, or turning to one, edits the panes that list the terminal and moves none. */
  lemma {:induction false} UpdateEditsPane(node: Node, id: string, edit: LeafEdit, r: Rect)
    ensures Panes(UpdateNode(node, id, edit).0, r) == EditPanes(Panes(node, r), id, edit)
    decreases node, 0
  {
    match node
    case Leaf(_, _, _, _) =>
    case Split(_, direction, children, _) =>
      if children != [] {
        UpdateEditsRow(children, id, edit, direction, Extents(node, r), Start(r, direction), CrossStart(r, direction), Cross(r, direction));
        NotFoundUnchanged(children, id, edit);
        hide Row, EditPanes;
        var next := node.(children := UpdateAll(children, id, edit).0);
        assert Extents(next, r) == Extents(node, r);
      }
  }

  lemma {:induction false} NotFoundUnchanged(nodes: seq<Node>, id: string, edit: LeafEdit)
    ensures |UpdateAll(nodes, id, edit).0| == |nodes|
    ensures !UpdateAll(nodes, id, edit).1 ==> UpdateAll(nodes, id, edit).0 == nodes
    decreases nodes
  {
    if nodes != [] {
      if nodes[0].Split? {
        NotFoundUnchanged(nodes[0].children, id, edit);
      }
      NotFoundUnchanged(nodes[1..], id, edit);
    }
  }

  lemma {:induction false} UpdateEditsRow(nodes: seq<Node>, id: string, edit: LeafEdit, direction: Direction,
                                          lengths: seq<real>, at: real, crossAt: real, cross: real)
    requires |lengths| == |nodes|
    ensures |UpdateAll(nodes, id, edit).0| == |nodes|
    ensures Row(direction, UpdateAll(nodes, id, edit).0, lengths, at, crossAt, cross)
         == EditPanes(Row(direction, nodes, lengths, at, crossAt, cross), id, edit)
    decreases nodes, 0
  {
    if nodes != [] {
      var strip := Strip(direction, at, lengths[0], crossAt, cross);
      UpdateEditsPane(nodes[0], id, edit, strip);
      UpdateEditsRow(nodes[1..], id, edit, direction, lengths[1..], at + lengths[0], crossAt, cross);
      EditPanesConcat(Panes(nodes[0], strip), Row(direction, nodes[1..], lengths[1..], at + lengths[0], crossAt, cross), id, edit);
    }
  }

  /** The pane at each place keeps its place; those that show the terminal change as told, the others not at all. */
  predicate Edited(before: seq<Pane>, after: seq<Pane>, id: string, change: (Node, Node) -> bool) {
    && |after| == |before|
    && forall i :: 0 <= i < |before| ==>
         && after[i].rect == before[i].rect
         && (if Shows(before[i], id) then change(before[i].leaf, after[i].leaf) else after[i] == before[i])
  }

  /** The pane as it was, with this tab visible. */
  predicate TurnedTo(before: Node, after: Node, id: string) {
    && before.Leaf? && after.Leaf? && after.activeTerminalId == id
    && after.terminalIds == before.terminalIds && after.paneId == before.paneId && after.terminalId == before.terminalId
  }

  /** The pane with one more tab, the last one, which is visible. */
  predicate TabAdded(before: Node, after: Node, newId: string) {
    && before.Leaf? && after.Leaf? && after.activeTerminalId == newId
    && after.terminalIds == before.terminalIds + [newId] && after.paneId == before.paneId && after.terminalId == before.terminalId
  }

  /** A chosen tab is visible in every pane that lists it, and no other pane changes. */
  lemma ActivateShows(node: Node, id: string, r: Rect)
    ensures Edited(Panes(node, r), Panes(UpdateNode(node, id, Activate).0, r), id,
                   (before: Node, after: Node) => TurnedTo(before, after, id))
  {
    hide UpdateNode, Panes;
    UpdateEditsPane(node, id, Activate, r);
  }

  /** A new tab comes last in the panes that list its target and is visible there, and no other pane changes. */
  lemma AddTabShows(node: Node, id: string, newId: string, r: Rect)
    ensures Edited(Panes(node, r), Panes(UpdateNode(node, id, AddTab(newId)).0, r), id,
                   (before: Node, after: Node) => TabAdded(before, after, newId))
  {
    hide UpdateNode, Panes;
    UpdateEditsPane(node, id, AddTab(newId), r);
  }

  // ----- resizing -----

  /** The weights of the outermost splits with an id, left to right. */
  function WeightsOf(node: Node, splitId: string): seq<seq<real>>
    decreases node, 0
  {
    match node
    case Leaf(_, _, _, _) => []
    case Split(id, _, children, weights) => if id == splitId then [weights] else AllWeightsOf(children, splitId)
  }

  function AllWeightsOf(nodes: seq<Node>, splitId: string): seq<seq<real>>
    decreases nodes, 0
  {
    if nodes == [] then [] else WeightsOf(nodes[0], splitId) + AllWeightsOf(nodes[1..], splitId)
  }

  predicate Takes(after: seq<seq<real>>, before: seq<seq<real>>, weights: seq<real>) {
    && |after| == |before|
    && forall i :: 0 <= i < |after| ==> after[i] == SplitWeights(|after[i]|, weights)
  }

  lemma {:induction false} ResizeFinds(node: Node, splitId: string, weights: seq<real>)
    ensures var r := ResizeNode(node, splitId, weights); (r.1 <==> WeightsOf(node, splitId) != []) && (!r.1 ==> r.0 == node)
    decreases node, 0
  {
    if node.Split? && node.id != splitId {
      ResizeAllFinds(node.children, splitId, weights);
    }
  }

  lemma {:induction false} ResizeAllFinds(nodes: seq<Node>, splitId: string, weights: seq<real>)
    ensures var r := ResizeAll(nodes, splitId, weights); (r.1 <==> AllWeightsOf(nodes, splitId) != []) && (!r.1 ==> r.0 == nodes)
    decreases nodes, 0
  {
    if nodes != [] {
      ResizeFinds(nodes[0], splitId, weights);
      ResizeAllFinds(nodes[1..], splitId, weights);
    }
  }

  predicate All(given: seq<seq<real>>, weights: seq<real>) {
    forall w <- given :: w == weights
  }

  /** Resizing gives the split the weights it is told, and giving it back the weights it had restores the tree. */
  lemma {:induction false} ResizeSetsWeights(node: Node, splitId: string, weights: seq<real>, before: seq<real>, valid: set<string>)
    requires Normal(node, valid)
    ensures var r := ResizeNode(node, splitId, weights).0;
            && Takes(WeightsOf(r, splitId), WeightsOf(node, splitId), weights)
            && (All(WeightsOf(node, splitId), before) ==> ResizeNode(r, splitId, before).0 == node)
    decreases node, 0
  {
    match node
    case Leaf(_, _, _, _) =>
    case Split(id, _, children, ws) =>
      var r := ResizeNode(node, splitId, weights).0;
      ResizeFinds(node, splitId, weights);
      ResizeFinds(r, splitId, before);
      if id != splitId {
        ResizeAllSetsWeights(children, splitId, weights, before, valid);
        ResizeAllFinds(children, splitId, weights);
      } else {
        assert ws in WeightsOf(node, splitId);
        NormalIsAligned(node, valid);
        AlignedTotal(node);
      }
  }

  lemma {:induction false} ResizeAllSetsWeights(nodes: seq<Node>, splitId: string, weights: seq<real>, before: seq<real>, valid: set<string>)
    requires forall c <- nodes :: Normal(c, valid)
    ensures var r := ResizeAll(nodes, splitId, weights).0;
            && Takes(AllWeightsOf(r, splitId), AllWeightsOf(nodes, splitId), weights)
            && (All(AllWeightsOf(nodes, splitId), before) ==> ResizeAll(r, splitId, before).0 == nodes)
    decreases nodes, 0
  {
    if nodes != [] {
      ResizeSetsWeights(nodes[0], splitId, weights, before, valid);
      ResizeAllSetsWeights(nodes[1..], splitId, weights, before, valid);
      var r := ResizeAll(nodes, splitId, weights).0;
      assert r[0] == ResizeNode(nodes[0], splitId, weights).0 && r[1..] == ResizeAll(nodes[1..], splitId, weights).0;
      assert nodes == [nodes[0]] + nodes[1..];
      var a, b := WeightsOf(nodes[0], splitId), AllWeightsOf(nodes[1..], splitId);
      assert All(a + b, before) ==> All(a, before) && All(b, before) by {
        assert forall w <- a :: w in a + b;
        assert forall w <- b :: w in a + b;
      }
    }
  }
}
