/** Which tabs a tree shows, and whether a terminal closed in it leaves the next one in sight. */
module PaneFacing {
  import opened Sequences
  import opened Wrappers
  import opened PaneTree
  import opened PaneNormal
  import opened PaneGeometry
  import opened PaneSplit
  import opened PaneClose
  import opened PaneTabs
  import opened PaneEffects

  /** The panes of a tree, left to right. */
  function Leafs(node: Node): (r: seq<Node>)
    ensures forall i :: 0 <= i < |r| ==> r[i].Leaf?
    decreases node, 0
  {
    match node
    case Leaf(_, _, _, _) => [node]
    case Split(_, _, children, _) => AllLeafs(children)
  }

  function AllLeafs(nodes: seq<Node>): (r: seq<Node>)
    ensures forall i :: 0 <= i < |r| ==> r[i].Leaf?
    decreases nodes, 0
  {
    if nodes == [] then [] else Leafs(nodes[0]) + AllLeafs(nodes[1..])
  }

  /** The pane listing the terminal shows it. */
  predicate Facing(node: Node, id: string) {
    AllFace(Leafs(node), id)
  }

  predicate AllFace(leafs: seq<Node>, id: string)
    requires forall i :: 0 <= i < |leafs| ==> leafs[i].Leaf?
  {
    forall i :: 0 <= i < |leafs| && id in leafs[i].terminalIds ==> leafs[i].activeTerminalId == id
  }

  // ----- the panes drawn are these -----

  predicate SameLeafs(panes: seq<Pane>, leafs: seq<Node>) {
    |panes| == |leafs| && forall i :: 0 <= i < |leafs| ==> panes[i].leaf == leafs[i]
  }

  lemma {:induction false} PanesAreLeafs(node: Node, frame: Rect)
    ensures SameLeafs(Panes(node, frame), Leafs(node))
    decreases node, 0
  {
    match node
    case Leaf(_, _, _, _) =>
    case Split(_, direction, children, _) =>
      if children != [] {
        RowIsLeafs(children, direction, Extents(node, frame), Start(frame, direction), CrossStart(frame, direction), Cross(frame, direction));
      }
  }

  lemma {:induction false} RowIsLeafs(nodes: seq<Node>, direction: Direction, lengths: seq<real>, at: real, crossAt: real, cross: real)
    requires |lengths| == |nodes|
    ensures SameLeafs(Row(direction, nodes, lengths, at, crossAt, cross), AllLeafs(nodes))
    decreases nodes, 0
  {
    if nodes == [] {
      RowNothing(direction, at, crossAt, cross);
    } else {
      RowUncons(direction, nodes, lengths, at, crossAt, cross);
      PanesAreLeafs(nodes[0], Strip(direction, at, lengths[0], crossAt, cross));
      RowIsLeafs(nodes[1..], direction, lengths[1..], at + lengths[0], crossAt, cross);
    }
  }

  lemma SamePicture(a: Node, b: Node, frame: Rect)
    requires Panes(a, frame) == Panes(b, frame)
    ensures Leafs(a) == Leafs(b)
  {
    hide Panes, Leafs;
    PanesAreLeafs(a, frame);
    PanesAreLeafs(b, frame);
  }

  // ----- what the panes list -----

  function Listing(leafs: seq<Node>): seq<string>
    requires forall i :: 0 <= i < |leafs| ==> leafs[i].Leaf?
  {
    if leafs == [] then [] else leafs[0].terminalIds + Listing(leafs[1..])
  }

  lemma {:induction false} ListingConcat(a: seq<Node>, b: seq<Node>)
    requires forall i :: 0 <= i < |a| ==> a[i].Leaf?
    requires forall i :: 0 <= i < |b| ==> b[i].Leaf?
    ensures Listing(a + b) == Listing(a) + Listing(b)
  {
    if a == [] {
      assert a + b == b;
    } else {
      assert (a + b)[1..] == a[1..] + b;
      ListingConcat(a[1..], b);
    }
  }

  lemma {:induction false} ListsTerminals(node: Node, valid: set<string>)
    requires Tidy(node, valid)
    ensures Listing(Leafs(node)) == Terminals(node)
    decreases node, 0
  {
    match node
    case Leaf(_, _, _, _) =>
      NormalLeafFixed(node, valid);
      assert [node][1..] == [];
      assert Listing([node]) == node.terminalIds + [];
    case Split(_, _, children, _) => AllListTerminals(children, valid);
  }

  lemma {:induction false} AllListTerminals(nodes: seq<Node>, valid: set<string>)
    requires forall c <- nodes :: Tidy(c, valid)
    ensures Listing(AllLeafs(nodes)) == AllTerminals(nodes)
    decreases nodes, 0
  {
    if nodes != [] {
      ListsTerminals(nodes[0], valid);
      AllListTerminals(nodes[1..], valid);
      ListingConcat(Leafs(nodes[0]), AllLeafs(nodes[1..]));
    }
  }

  /** The list in three parts around one pane. */
  lemma ListingAround(leafs: seq<Node>, k: nat)
    requires k < |leafs| && forall i :: 0 <= i < |leafs| ==> leafs[i].Leaf?
    ensures Listing(leafs) == Listing(leafs[..k]) + leafs[k].terminalIds + Listing(leafs[k + 1..])
  {
    hide Listing;
    var tail := [leafs[k]] + leafs[k + 1..];
    assert leafs == leafs[..k] + tail && tail[1..] == leafs[k + 1..];
    ListingConcat(leafs[..k], tail);
    ListingUncons(tail);
  }

  lemma ListingUncons(leafs: seq<Node>)
    requires leafs != [] && forall i :: 0 <= i < |leafs| ==> leafs[i].Leaf?
    ensures Listing(leafs) == leafs[0].terminalIds + Listing(leafs[1..])
  {
  }

  lemma PaneLists(leafs: seq<Node>, k: nat, id: string)
    requires k < |leafs| && (forall i :: 0 <= i < |leafs| ==> leafs[i].Leaf?) && id in leafs[k].terminalIds
    ensures id in Listing(leafs)
  {
    ListingAround(leafs, k);
  }

  // ----- turning, adding, splitting -----

  lemma Unlisted(node: Node, id: string, valid: set<string>)
    requires Tidy(node, valid) && id !in Terminals(node)
    ensures forall i :: 0 <= i < |Leafs(node)| ==> id !in Leafs(node)[i].terminalIds
  {
    hide Leafs, Tidy, Terminals;
    ListsTerminals(node, valid);
    forall i | 0 <= i < |Leafs(node)|
      ensures id !in Leafs(node)[i].terminalIds
    {
      if id in Leafs(node)[i].terminalIds {
        PaneLists(Leafs(node), i, id);
      }
    }
  }

  lemma TurnFaces(before: Node, after: Node, id: string, frame: Rect)
    requires Edited(Panes(before, frame), Panes(after, frame), id, (b: Node, a: Node) => TurnedTo(b, a, id))
    ensures Facing(after, id)
  {
    hide Panes, Leafs;
    PanesAreLeafs(before, frame);
    PanesAreLeafs(after, frame);
  }

  lemma TabFaces(before: Node, after: Node, target: string, id: string, valid: set<string>, frame: Rect)
    requires Tidy(before, valid) && id !in Terminals(before)
    requires Edited(Panes(before, frame), Panes(after, frame), target, (b: Node, a: Node) => TabAdded(b, a, id))
    ensures Facing(after, id)
  {
    Unlisted(before, id, valid);
    hide Panes, Leafs, Tidy, Terminals;
    PanesAreLeafs(before, frame);
    PanesAreLeafs(after, frame);
  }

  /** If it is the pane that lists it, it shows it. */
  predicate PaneFaces(p: Pane, id: string) {
    p.leaf.Leaf? && (id in p.leaf.terminalIds ==> p.leaf.activeTerminalId == id)
  }

  predicate AllPanesFace(panes: seq<Pane>, id: string) {
    forall i :: 0 <= i < |panes| ==> PaneFaces(panes[i], id)
  }

  lemma PanesFaceConcat(a: seq<Pane>, b: seq<Pane>, id: string)
    requires AllPanesFace(a, id) && AllPanesFace(b, id)
    ensures AllPanesFace(a + b, id)
  {
  }

  lemma {:induction false} SplitPaneFaces(panes: seq<Pane>, q: Request)
    requires forall i :: 0 <= i < |panes| ==> panes[i].leaf.Leaf? && q.newId !in panes[i].leaf.terminalIds
    ensures AllPanesFace(SplitPane(panes, q), q.newId)
  {
    if panes != [] {
      if Shows(panes[0], q.target) {
        PanesFaceConcat(Halves(panes[0], q), panes[1..], q.newId);
      } else {
        SplitPaneFaces(panes[1..], q);
        PanesFaceConcat([panes[0]], SplitPane(panes[1..], q), q.newId);
      }
    }
  }

  lemma SplitFaces(before: Node, after: Node, q: Request, valid: set<string>, frame: Rect)
    requires Tidy(before, valid) && q.newId !in Terminals(before)
    requires Panes(after, frame) == SplitPane(Panes(before, frame), q)
    ensures Facing(after, q.newId)
  {
    Unlisted(before, q.newId, valid);
    hide Panes, Leafs, Tidy, Terminals, SplitPane;
    PanesAreLeafs(before, frame);
    PanesAreLeafs(after, frame);
    SplitPaneFaces(Panes(before, frame), q);
    assert forall i :: 0 <= i < |Leafs(after)| ==> PaneFaces(Panes(after, frame)[i], q.newId);
  }

  // ----- closing -----

  /** The panes without one tab. */
  function KeptLeafs(leafs: seq<Node>, id: string): (r: seq<Node>)
    requires forall i :: 0 <= i < |leafs| ==> leafs[i].Leaf?
    ensures forall i :: 0 <= i < |r| ==> r[i].Leaf?
  {
    if leafs == [] then []
    else
      var first := RemoveFromLeaf(leafs[0], id).node;
      (if first.Some? then [first.value] else []) + KeptLeafs(leafs[1..], id)
  }

  lemma {:induction false} KeptConcat(a: seq<Node>, b: seq<Node>, id: string)
    requires forall i :: 0 <= i < |a| ==> a[i].Leaf?
    requires forall i :: 0 <= i < |b| ==> b[i].Leaf?
    ensures KeptLeafs(a + b, id) == KeptLeafs(a, id) + KeptLeafs(b, id)
  {
    hide RemoveFromLeaf;
    if a == [] {
      assert a + b == b;
    } else {
      assert (a + b)[1..] == a[1..] + b;
      KeptConcat(a[1..], b, id);
    }
  }

  function LeafsOf(node: Option<Node>): (r: seq<Node>)
    ensures forall i :: 0 <= i < |r| ==> r[i].Leaf?
  {
    if node.Some? then Leafs(node.value) else []
  }

  /** A closed terminal goes from the panes that list it; the others stay as they are. */
  lemma {:induction false} ClosedLeafs(node: Node, id: string)
    ensures LeafsOf(RemoveNode(node, id).node) == KeptLeafs(Leafs(node), id)
    ensures !RemoveNode(node, id).removed ==> RemoveNode(node, id).node == Some(node)
    decreases node, 0
  {
    match node
    case Leaf(_, _, _, _) =>
      assert [node][1..] == [];
      var r := RemoveFromLeaf(node, id).node;
      assert KeptLeafs([], id) == [];
      assert KeptLeafs([node], id) == if r.Some? then [r.value] else [];
    case Split(splitId, direction, children, weights) =>
      var ws := SplitWeights(|children|, weights);
      ClosedAll(children, ws, id);
      var kept := RemoveAll(children, ws, id);
      RegroupLeafs(splitId, direction, kept.nodes, kept.weights);
  }

  lemma RegroupLeafs(splitId: string, direction: Direction, nodes: seq<Node>, weights: seq<real>)
    ensures LeafsOf(Regroup(splitId, direction, nodes, weights)) == AllLeafs(nodes)
  {
    if |nodes| == 1 {
      assert nodes[1..] == [];
    }
    hide SplitWeights;
  }

  lemma {:induction false} ClosedAll(nodes: seq<Node>, weights: seq<real>, id: string)
    requires |weights| >= |nodes|
    ensures AllLeafs(RemoveAll(nodes, weights, id).nodes) == KeptLeafs(AllLeafs(nodes), id)
    ensures !RemoveAll(nodes, weights, id).removed ==> RemoveAll(nodes, weights, id).nodes == nodes
    decreases nodes, 0
  {
    if nodes != [] {
      var first, rest := RemoveNode(nodes[0], id), RemoveAll(nodes[1..], weights[1..], id);
      ClosedLeafs(nodes[0], id);
      ClosedAll(nodes[1..], weights[1..], id);
      hide RemoveNode, Leafs, KeptLeafs;
      KeptConcat(Leafs(nodes[0]), AllLeafs(nodes[1..]), id);
      if first.node.Some? {
        assert ([first.node.value] + rest.nodes)[1..] == rest.nodes;
        assert nodes == [nodes[0]] + nodes[1..];
      }
    }
  }

  /** After its own loss the pane shows the terminal, or does not list it. */
  predicate StillFaces(leaf: Node, id: string, next: string)
    requires leaf.Leaf?
  {
    var r := RemoveFromLeaf(leaf, id).node;
    r.Some? && next in r.value.terminalIds ==> r.value.activeTerminalId == next
  }

  lemma FaceConcat(a: seq<Node>, b: seq<Node>, id: string)
    requires forall i :: 0 <= i < |a| ==> a[i].Leaf?
    requires forall i :: 0 <= i < |b| ==> b[i].Leaf?
    ensures AllFace(a + b, id) <==> AllFace(a, id) && AllFace(b, id)
  {
    var all := a + b;
    assert forall i :: 0 <= i < |a| ==> all[i] == a[i];
    assert forall i :: 0 <= i < |b| ==> all[|a| + i] == b[i];
  }

  lemma FirstFaces(leaf: Node, id: string, next: string)
    requires leaf.Leaf?
    ensures var r := RemoveFromLeaf(leaf, id).node;
            && (r.Some? ==> r.value.Leaf?)
            && (AllFace(if r.Some? then [r.value] else [], next) <==> StillFaces(leaf, id, next))
  {
    var r := RemoveFromLeaf(leaf, id).node;
    if r.Some? {
      assert [r.value][0] == r.value;
    }
  }

  /** The panes left face a terminal exactly when each pane, after its own loss, does. */
  lemma {:induction false} KeptFace(leafs: seq<Node>, id: string, next: string)
    requires forall i :: 0 <= i < |leafs| ==> leafs[i].Leaf?
    ensures AllFace(KeptLeafs(leafs, id), next) <==> forall i :: 0 <= i < |leafs| ==> StillFaces(leafs[i], id, next)
  {
    hide RemoveFromLeaf, StillFaces, AllFace;
    if leafs != [] {
      var first, rest := RemoveFromLeaf(leafs[0], id).node, KeptLeafs(leafs[1..], id);
      KeptFace(leafs[1..], id, next);
      FirstFaces(leafs[0], id, next);
      FaceConcat(if first.Some? then [first.value] else [], rest, next);
      assert forall i :: 1 <= i < |leafs| ==> leafs[i] == leafs[1..][i - 1];
    } else {
      NoneFace(next);
    }
  }

  lemma NoneFace(id: string)
    ensures AllFace([], id)
  {
  }

  lemma SameMiddle(x: seq<string>, y: seq<string>, before: seq<string>, id: string, after: seq<string>)
    requires x + [id] + y == before + [id] + after && id !in before && id !in after && id !in x
    ensures x == before && y == after
  {
    var s, t := x + [id] + y, before + [id] + after;
    assert s[..|x|] == x && s[|x|] == id && t[..|before|] == before && t[|before|] == id;
    IndexOfIs(s, |x|);
    IndexOfIs(t, |before|);
    assert s[|x| + 1..] == y && t[|before| + 1..] == after;
  }

  // ----- closing the terminal in sight -----

  /** The k-th pane lists what the tree lists from its own place on. */
  lemma PaneHolds(leafs: seq<Node>, k: nat, before: seq<string>, id: string, after: seq<string>)
      returns (left: seq<string>, b: seq<string>, a: seq<string>, right: seq<string>)
    requires k < |leafs| && (forall i :: 0 <= i < |leafs| ==> leafs[i].Leaf?) && id in leafs[k].terminalIds
    requires Listing(leafs) == before + [id] + after && NoDup(before + [id] + after)
    ensures leafs[k].terminalIds == b + [id] + a && before == left + b && after == a + right
    ensures id !in b && id !in a
  {
    hide Listing;
    ListingAround(leafs, k);
    var ids := leafs[k].terminalIds;
    var i :| 0 <= i < |ids| && ids[i] == id;
    left, right := Listing(leafs[..k]), Listing(leafs[k + 1..]);
    b, a := ids[..i], ids[i + 1..];
    assert ids == b + [id] + a;
    assert left + ids + right == (left + b) + [id] + (a + right);
    MiddleApart(before, id, after);
    MiddleApart(left + b, id, a + right);
    SameMiddle(left + b, a + right, before, id, after);
  }

  /** A pane that showed the closed terminal now shows the next one, if it lists that. */
  lemma OwnPaneFaces(leafs: seq<Node>, k: nat, before: seq<string>, id: string, after: seq<string>)
    requires k < |leafs| && (forall i :: 0 <= i < |leafs| ==> leafs[i].Leaf?) && id in leafs[k].terminalIds
    requires Listing(leafs) == before + [id] + after && NoDup(before + [id] + after) && before + after != []
    requires leafs[k].activeTerminalId == id
    ensures StillFaces(leafs[k], id, Neighbour(before, after))
  {
    hide Listing;
    var left, b, a, right := PaneHolds(leafs, k, before, id, after);
    ClosedTab(leafs[k], b, id, a);
    MiddleApart(before, id, after);
    hide NoDup;
    if b + a != [] && a == [] && after != [] {
      NotBoth(before, after, after[0]);
    }
  }

  lemma NotBoth(before: seq<string>, after: seq<string>, t: string)
    requires NoDup(before + after) && t in after
    ensures t !in before
  {
    NoDupConcat(before, after);
  }

  /** Another pane lists the terminal that comes next, behind the tab it shows. */
  predicate Behind(leaf: Node, id: string, next: string)
    requires leaf.Leaf?
  {
    next in leaf.terminalIds && id !in leaf.terminalIds && leaf.activeTerminalId != next
  }

  lemma OtherPaneFaces(leaf: Node, id: string, next: string)
    requires leaf.Leaf? && id !in leaf.terminalIds
    ensures StillFaces(leaf, id, next) <==> !Behind(leaf, id, next)
  {
  }

  /** Once the terminal in sight is closed its neighbour is in sight, unless that is behind another tab elsewhere. */
  lemma NeighbourFaces(leafs: seq<Node>, before: seq<string>, id: string, after: seq<string>)
    requires (forall i :: 0 <= i < |leafs| ==> leafs[i].Leaf?) && AllFace(leafs, id)
    requires Listing(leafs) == before + [id] + after && NoDup(before + [id] + after) && before + after != []
    ensures AllFace(KeptLeafs(leafs, id), Neighbour(before, after)) <==>
            forall i :: 0 <= i < |leafs| ==> !Behind(leafs[i], id, Neighbour(before, after))
  {
    hide Listing, KeptLeafs, StillFaces, Behind, NoDup;
    var next := Neighbour(before, after);
    KeptFace(leafs, id, next);
    forall i | 0 <= i < |leafs|
      ensures StillFaces(leafs[i], id, next) <==> !Behind(leafs[i], id, next)
    {
      if id in leafs[i].terminalIds {
        OwnPaneFaces(leafs, i, before, id, after);
        NotBehind(leafs[i], id, next);
      } else {
        OtherPaneFaces(leafs[i], id, next);
      }
    }
  }

  lemma NotBehind(leaf: Node, id: string, next: string)
    requires leaf.Leaf? && id in leaf.terminalIds
    ensures !Behind(leaf, id, next)
  {
  }

  /** What was in sight and is not closed stays in sight. */
  lemma OthersFace(leafs: seq<Node>, id: string, shown: string)
    requires (forall i :: 0 <= i < |leafs| ==> leafs[i].Leaf?) && AllFace(leafs, shown) && shown != id
    ensures AllFace(KeptLeafs(leafs, id), shown)
  {
    hide KeptLeafs, StillFaces;
    KeptFace(leafs, id, shown);
    forall i | 0 <= i < |leafs|
      ensures StillFaces(leafs[i], id, shown)
    {
      ShownStays(leafs[i], id, shown);
    }
  }

  lemma ShownStays(leaf: Node, id: string, shown: string)
    requires leaf.Leaf? && shown != id && (shown in leaf.terminalIds ==> leaf.activeTerminalId == shown)
    ensures StillFaces(leaf, id, shown)
  {
  }

  /** In a tree of one pane, the first of the rest is in sight unless a tab between the two is closed. */
  lemma FirstTabFaces(leaf: Node, before: seq<string>, id: string, after: seq<string>)
    requires leaf.Leaf? && leaf.terminalIds == before + [id] + after && leaf.activeTerminalId == id
    requires NoDup(before + [id] + after) && before + after != []
    ensures AllFace(KeptLeafs([leaf], id), (before + after)[0]) <==> before == [] || |before + after| == 1
  {
    MiddleApart(before, id, after);
    ClosedTab(leaf, before, id, after);
    var rest := before + after;
    KeptFace([leaf], id, rest[0]);
    assert [leaf][0] == leaf;
    assert AllFace(KeptLeafs([leaf], id), rest[0]) <==> StillFaces(leaf, id, rest[0]);
    assert before != [] ==> rest[0] == before[0];
    assert before != [] && after != [] ==> rest[|before|] == after[0];
    assert after == [] ==> rest[|rest| - 1] == before[|before| - 1];
    assert id !in rest;
  }
}
