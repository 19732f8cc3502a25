/** Edits that keep a tree's shape: a new tab, the visible tab, a split's weights. */
module PaneUpdate {
  import opened Strings
  import opened Sequences
  import opened PaneTree

  datatype LeafEdit = AddTab(newId: string) | Activate

  function EditLeaf(leaf: Node, id: string, edit: LeafEdit): Node
    requires leaf.Leaf?
  {
    match edit
    case AddTab(newId) => leaf.(terminalIds := leaf.terminalIds + [newId], activeTerminalId := newId)
    case Activate => leaf.(activeTerminalId := id)
  }

  /** updateLeafNode: the edited tree, and whether a pane listed the terminal. */
  function UpdateNode(node: Node, id: string, edit: LeafEdit): (Node, bool)
    decreases node, 0
  {
    match node
    case Leaf(_, ids, _, _) => if id in ids then (EditLeaf(node, id, edit), true) else (node, false)
    case Split(_, _, children, _) =>
      var r := UpdateAll(children, id, edit);
      (if r.1 then node.(children := r.0) else node, r.1)
  }

  function UpdateAll(nodes: seq<Node>, id: string, edit: LeafEdit): (seq<Node>, bool)
    decreases nodes, 0
  {
    if nodes == [] then ([], false)
    else
      var first := UpdateNode(nodes[0], id, edit);
      var rest := UpdateAll(nodes[1..], id, edit);
      ([first.0] + rest.0, first.1 || rest.1)
  }

  predicate SameKind(a: Node, b: Node) {
    (a.Split? <==> b.Split?) && (a.Split? ==> a.direction == b.direction && |a.children| == |b.children|)
  }

  lemma {:induction false} UpdateKeepsKind(node: Node, id: string, edit: LeafEdit)
    ensures SameKind(node, UpdateNode(node, id, edit).0)
    decreases node, 0
  {
    if node.Split? {
      UpdateAllKeepsKind(node.children, id, edit);
    }
  }

  lemma {:induction false} UpdateAllKeepsKind(nodes: seq<Node>, id: string, edit: LeafEdit)
    ensures var r := UpdateAll(nodes, id, edit).0;
            |r| == |nodes| && forall i :: 0 <= i < |nodes| ==> SameKind(nodes[i], r[i])
    decreases nodes, 0
  {
    if nodes != [] {
      UpdateKeepsKind(nodes[0], id, edit);
      UpdateAllKeepsKind(nodes[1..], id, edit);
    }
  }

  /** Only a pane that lists the terminal is edited. */
  lemma {:induction false} UpdateFinds(node: Node, id: string, edit: LeafEdit, valid: set<string>)
    requires Normal(node, valid)
    ensures var r := UpdateNode(node, id, edit);
            (r.1 <==> id in Terminals(node)) && (!r.1 ==> r.0 == node)
    decreases node, 0
  {
    match node
    case Leaf(_, _, _, _) => NormalLeafFixed(node, valid);
    case Split(_, _, children, _) => UpdateAllFinds(children, id, edit, valid);
  }

  lemma {:induction false} UpdateAllFinds(nodes: seq<Node>, id: string, edit: LeafEdit, valid: set<string>)
    requires forall c <- nodes :: Normal(c, valid)
    ensures var r := UpdateAll(nodes, id, edit);
            (r.1 <==> id in AllTerminals(nodes)) && (!r.1 ==> r.0 == nodes)
    decreases nodes, 0
  {
    if nodes != [] {
      UpdateFinds(nodes[0], id, edit, valid);
      UpdateAllFinds(nodes[1..], id, edit, valid);
    }
  }

  /** Children of the same kinds, all normal, make a normal split again. */
  lemma SplitAgain(node: Node, children: seq<Node>, valid: set<string>, more: set<string>)
    requires node.Split? && Normal(node, valid) && |children| == |node.children|
    requires forall i :: 0 <= i < |children| ==> SameKind(node.children[i], children[i])
    requires forall c <- children :: Normal(c, more)
    ensures Normal(node.(children := children), more)
  {
    forall c <- children
      ensures !SameDirection(c, node.direction)
    {
      var i :| 0 <= i < |children| && children[i] == c;
      assert node.children[i] in node.children;
    }
  }

  /** Showing another tab keeps the tree normal and every terminal in place. */
  lemma {:induction false} ActivateKeeps(node: Node, id: string, valid: set<string>)
    requires Normal(node, valid)
    ensures var r := UpdateNode(node, id, Activate).0;
            Normal(r, valid) && Terminals(r) == Terminals(node)
    decreases node, 0
  {
    hide PaneIds, CleanIds;
    match node
    case Leaf(_, _, _, _) =>
      NormalLeafFixed(node, valid);
      NormalLeafFixed(UpdateNode(node, id, Activate).0, valid);
    case Split(_, _, children, _) =>
      ActivateAllKeeps(children, id, valid);
      UpdateAllKeepsKind(children, id, Activate);
      SplitAgain(node, UpdateAll(children, id, Activate).0, valid, valid);
  }

  lemma {:induction false} ActivateAllKeeps(nodes: seq<Node>, id: string, valid: set<string>)
    requires forall c <- nodes :: Normal(c, valid)
    ensures var r := UpdateAll(nodes, id, Activate).0;
            (forall c <- r :: Normal(c, valid)) && AllTerminals(r) == AllTerminals(nodes)
    decreases nodes, 0
  {
    if nodes != [] {
      ActivateKeeps(nodes[0], id, valid);
      ActivateAllKeeps(nodes[1..], id, valid);
    }
  }

  /** A new tab joins the one pane that shows the target, and no other pane changes. */
  lemma {:induction false} AddTabKeeps(node: Node, id: string, newId: string, valid: set<string>)
    requires Normal(node, valid) && NoDup(Terminals(node)) && id in Terminals(node)
    requires Clean(newId) && newId !in Terminals(node)
    ensures var r := UpdateNode(node, id, AddTab(newId)).0;
            && Normal(r, valid + {newId})
            && multiset(Terminals(r)) == multiset(Terminals(node)) + multiset{newId}
    decreases node, 0
  {
    hide PaneIds, CleanIds;
    match node
    case Leaf(_, ids, _, _) =>
      NormalLeafFixed(node, valid);
      NormalLeafFixed(UpdateNode(node, id, AddTab(newId)).0, valid + {newId});
    case Split(_, _, children, _) =>
      AddTabAllKeeps(children, id, newId, valid);
      UpdateAllKeepsKind(children, id, AddTab(newId));
      UpdateAllFinds(children, id, AddTab(newId), valid);
      SplitAgain(node, UpdateAll(children, id, AddTab(newId)).0, valid, valid + {newId});
  }

  lemma UpdateNothing(nodes: seq<Node>, id: string, edit: LeafEdit)
    requires nodes == []
    ensures UpdateAll(nodes, id, edit).0 == [] && AllTerminals(nodes) == []
  {
  }

  lemma UpdateAllUncons(nodes: seq<Node>, id: string, edit: LeafEdit)
    requires nodes != []
    ensures UpdateAll(nodes, id, edit).0 == [UpdateNode(nodes[0], id, edit).0] + UpdateAll(nodes[1..], id, edit).0
  {
    hide UpdateNode;
  }

  lemma TerminalsUncons(nodes: seq<Node>)
    requires nodes != []
    ensures AllTerminals(nodes) == Terminals(nodes[0]) + AllTerminals(nodes[1..])
  {
    hide Terminals;
  }

  lemma {:induction false} AddTabAllKeeps(nodes: seq<Node>, id: string, newId: string, valid: set<string>)
    requires forall c <- nodes :: Normal(c, valid)
    requires NoDup(AllTerminals(nodes)) && Clean(newId) && newId !in AllTerminals(nodes)
    ensures var r := UpdateAll(nodes, id, AddTab(newId)).0;
            && (forall c <- r :: Normal(c, valid + {newId}))
            && multiset(AllTerminals(r)) ==
               multiset(AllTerminals(nodes)) + (if id in AllTerminals(nodes) then multiset{newId} else multiset{})
    decreases nodes, 0
  {
    hide *;
    if nodes == [] {
      UpdateNothing(nodes, id, AddTab(newId));
    } else {
      var first, rest := Terminals(nodes[0]), AllTerminals(nodes[1..]);
      assert nodes[0] in nodes;
      UpdateAllUncons(nodes, id, AddTab(newId));
      TerminalsUncons(nodes);
      NoDupConcat(first, rest);
      AddTabAllKeeps(nodes[1..], id, newId, valid);
      UpdateFinds(nodes[0], id, AddTab(newId), valid);
      NormalMonotone(nodes[0], valid, valid + {newId});
      if id in first {
        AddTabKeeps(nodes[0], id, newId, valid);
      }
      var r := UpdateAll(nodes, id, AddTab(newId)).0;
      TerminalsUncons(r);
      assert r[1..] == UpdateAll(nodes[1..], id, AddTab(newId)).0;
    }
  }

  // ----- resizing -----

  /** resizeSplitNode: the outermost splits with the id take the given weights. */
  function ResizeNode(node: Node, splitId: string, weights: seq<real>): (Node, bool)
    decreases node, 0
  {
    match node
    case Leaf(_, _, _, _) => (node, false)
    case Split(id, _, children, _) =>
      if id == splitId then (node.(weights := SplitWeights(|children|, weights)), true)
      else
        var r := ResizeAll(children, splitId, weights);
        (if r.1 then node.(children := r.0) else node, r.1)
  }

  function ResizeAll(nodes: seq<Node>, splitId: string, weights: seq<real>): (seq<Node>, bool)
    decreases nodes, 0
  {
    if nodes == [] then ([], false)
    else
      var first := ResizeNode(nodes[0], splitId, weights);
      var rest := ResizeAll(nodes[1..], splitId, weights);
      ([first.0] + rest.0, first.1 || rest.1)
  }

  /** Resizing keeps the tree normal, whatever weights are given, and every terminal in place. */
  lemma {:induction false} ResizeKeeps(node: Node, splitId: string, weights: seq<real>, valid: set<string>)
    requires Normal(node, valid)
    ensures var r := ResizeNode(node, splitId, weights).0;
            Normal(r, valid) && Terminals(r) == Terminals(node) && SameKind(node, r)
    decreases node, 0
  {
    if node.Split? && node.id != splitId {
      ResizeAllKeeps(node.children, splitId, weights, valid);
      SplitAgain(node, ResizeAll(node.children, splitId, weights).0, valid, valid);
    }
  }

  lemma {:induction false} ResizeAllKeeps(nodes: seq<Node>, splitId: string, weights: seq<real>, valid: set<string>)
    requires forall c <- nodes :: Normal(c, valid)
    ensures var r := ResizeAll(nodes, splitId, weights).0;
            && |r| == |nodes| && (forall i :: 0 <= i < |nodes| ==> SameKind(nodes[i], r[i]))
            && (forall c <- r :: Normal(c, valid)) && AllTerminals(r) == AllTerminals(nodes)
    decreases nodes, 0
  {
    if nodes != [] {
      ResizeKeeps(nodes[0], splitId, weights, valid);
      ResizeAllKeeps(nodes[1..], splitId, weights, valid);
    }
  }
}
