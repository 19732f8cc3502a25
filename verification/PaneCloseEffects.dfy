/** What closing a terminal does to the picture: a pane that goes leaves its row to its siblings. */
module PaneCloseEffects {
  import opened Sequences
  import opened Wrappers
  import opened PaneTree
  import opened PaneNormal
  import opened PaneGeometry
  import opened PaneSplit
  import opened PaneEdit
  import opened PaneClose

  lemma OnlyInChild(node: Node, i: nat, id: string)
    requires node.Split? && i < |node.children| && NoDup(AllTerminals(node.children)) && id in Terminals(node.children[i])
    ensures id !in AllTerminals(node.children[..i]) && id !in AllTerminals(node.children[i + 1..])
  {
    hide AllTerminals, Terminals, NoDup;
    var a, c, b := node.children[..i], node.children[i], node.children[i + 1..];
    assert node.children == a + [c] + b;
    AllTerminals3(a, [c], b);
    AllTerminalsOne(c);
    NoDupConcat(AllTerminals(a) + Terminals(c), AllTerminals(b));
    NoDupConcat(AllTerminals(a), Terminals(c));
    assert id in AllTerminals(a) + Terminals(c);
  }

  /** The children and weights a removal inside child i leaves. */
  lemma RemoveInChild(node: Node, i: nat, id: string, valid: set<string>)
    requires Normal(node, valid) && node.Split? && i < |node.children|
    requires NoDup(AllTerminals(node.children)) && id in Terminals(node.children[i])
    ensures var r := RemoveNode(node.children[i], id);
            var kept := if r.node.Some? then [r.node.value] else [];
            var ws := if r.node.Some? then [node.weights[i]] else [];
            && r.removed
            && RemoveNode(node, id)
               == Removal(Regroup(node.id, node.direction, node.children[..i] + kept + node.children[i + 1..],
                                  node.weights[..i] + ws + node.weights[i + 1..]), true)
  {
    hide Normal, PaneIds, AllTerminals, Terminals, Regroup, Tidy, NoDup, Without;
    CutsApart(node, i, valid);
    var a, c, b := node.children[..i], node.children[i], node.children[i + 1..];
    var u, w, v := node.weights[..i], node.weights[i], node.weights[i + 1..];
    OnlyInChild(node, i, id);
    forall n <- a + b
      ensures Tidy(n, valid)
    {
      NormalIsTidy(n, valid);
    }
    NormalIsTidy(c, valid);
    RemoveDropsTerminal(c, id, valid);
    RemoveAllOne(c, w, id);
    RemoveAround(a, [c], b, u, [w], v, id, valid);
    NormalWeights(node, valid);
    hide RemoveAll;
    assert node.children == a + [c] + b && node.weights == u + [w] + v;
  }

  lemma NormalWeights(node: Node, valid: set<string>)
    requires Normal(node, valid) && node.Split?
    ensures SplitWeights(|node.children|, node.weights) == node.weights
  {
    NormalIsAligned(node, valid);
    AlignedTotal(node);
  }

  /** While the child keeps a pane, closing redraws the child within its own strip and moves no other pane. */
  lemma CloseStaysInChild(node: Node, i: nat, id: string, valid: set<string>, r: Rect)
    requires Normal(node, valid) && node.Split? && i < |node.children|
    requires NoDup(AllTerminals(node.children)) && id in Terminals(node.children[i])
    requires RemoveNode(node.children[i], id).node.Some?
    ensures Positive(node.weights[..i]) && Positive(node.weights[i + 1..]) && node.weights[i] > 0.0
    ensures RemoveNode(node, id).node.Some?
    ensures var d := node.direction;
            var cut := Cut(node.weights[..i], node.weights[i], node.weights[i + 1..], Extent(r, d));
            var strip := ChildRect(d, node.weights[..i], node.weights[i], node.weights[i + 1..], r);
            var before := Row(d, node.children[..i], cut.0, Start(r, d), CrossStart(r, d), Cross(r, d));
            var after := Row(d, node.children[i + 1..], cut.2, Start(r, d) + Sum(cut.0) + cut.1, CrossStart(r, d), Cross(r, d));
            && Panes(node, r) == before + Panes(node.children[i], strip) + after
            && Panes(RemoveNode(node, id).node.value, r) == before + Panes(RemoveNode(node.children[i], id).node.value, strip) + after
  {
    hide *;
    CutsApart(node, i, valid);
    RemoveInChild(node, i, id, valid);
    var a, b := node.children[..i], node.children[i + 1..];
    var u, w, v := node.weights[..i], node.weights[i], node.weights[i + 1..];
    var c := RemoveNode(node.children[i], id).node.value;
    NormalWeights(node, valid);
    var after := Split(node.id, node.direction, a + [c] + b, u + [w] + v);
    RegroupWhole(node.id, node.direction, a + [c] + b, u + [w] + v);
    ChildDrawn(node, a, node.children[i], b, u, w, v, r);
    ChildDrawn(after, a, c, b, u, w, v, r);
  }

  lemma RegroupWhole(id: string, direction: Direction, nodes: seq<Node>, weights: seq<real>)
    requires |nodes| == |weights| >= 2 && Positive(weights)
    ensures Regroup(id, direction, nodes, weights) == Some(Split(id, direction, nodes, weights))
  {
    assert SplitWeights(|nodes|, weights) == weights;
  }

  lemma ChildDrawn(split: Node, a: seq<Node>, c: Node, b: seq<Node>, u: seq<real>, w: real, v: seq<real>, r: Rect)
    requires split.Split? && split.children == a + [c] + b && split.weights == u + [w] + v
    requires |u| == |a| && |v| == |b| && Positive(u) && Positive(v) && w > 0.0
    ensures var d, cut := split.direction, Cut(u, w, v, Extent(r, split.direction));
            Panes(split, r) == Row(d, a, cut.0, Start(r, d), CrossStart(r, d), Cross(r, d))
                             + Panes(c, ChildRect(d, u, w, v, r))
                             + Row(d, b, cut.2, Start(r, d) + Sum(cut.0) + cut.1, CrossStart(r, d), Cross(r, d))
  {
    hide *;
    var d, cut := split.direction, Cut(u, w, v, Extent(r, split.direction));
    CutPanes(split, u, w, v, r);
    ChildRectIs(d, u, w, v, r);
    RowAroundOne(d, a, c, b, cut.0, cut.1, cut.2, Start(r, d), CrossStart(r, d), Cross(r, d));
  }

  /** The lengths of a row whose weights fill its extent. */
  function Filling(weights: seq<real>, extent: real): (lengths: seq<real>)
    requires weights != [] && Positive(weights)
    ensures |lengths| == |weights|
  {
    SumPositive(weights);
    Scaled(weights, extent / Sum(weights))
  }

  lemma FillingShare(weights: seq<real>, extent: real, j: nat)
    requires j < |weights| && Positive(weights)
    ensures Filling(weights, extent)[j] * Sum(weights) == weights[j] * extent
  {
    hide Sum, Length;
    SumPositive(weights);
    ShareTimesTotal(weights[j], extent, Sum(weights));
  }

  /** Without the one at i, every length has grown by the factor whole to part. */
  predicate Grown(now: seq<real>, before: seq<real>, i: nat, part: real, whole: real) {
    |now| + 1 == |before| && forall j :: 0 <= j < |now| ==> now[j] * part == before[if j < i then j else j + 1] * whole
  }

  lemma ShareTimesTotal(w: real, extent: real, total: real)
    requires total > 0.0
    ensures Length(w, extent / total) * total == w * extent
  {
    var unit := extent / total;
    assert unit * total == extent;
    assert (w * unit) * total == w * (unit * total);
  }

  /**
   * When the closed terminal was its child's last, the siblings fill the row in their old proportions:
   * each grows by the factor of the whole row's weight to the siblings' weight.
   */
  lemma CloseGrowsSiblings(node: Node, i: nat, id: string, valid: set<string>, r: Rect)
    requires Normal(node, valid) && node.Split? && i < |node.children|
    requires NoDup(AllTerminals(node.children)) && id in Terminals(node.children[i])
    requires RemoveNode(node.children[i], id).node.None?
    ensures var rest, ws := node.children[..i] + node.children[i + 1..], node.weights[..i] + node.weights[i + 1..];
            var d, e := node.direction, Extent(r, node.direction);
            && ws != [] && Positive(ws) && |ws| == |rest|
            && RemoveNode(node, id).node.Some?
            && Panes(RemoveNode(node, id).node.value, r)
               == Row(d, rest, Filling(ws, e), Start(r, d), CrossStart(r, d), Cross(r, d))
            && Panes(node, r) == Row(d, node.children, Filling(node.weights, e), Start(r, d), CrossStart(r, d), Cross(r, d))
            && Grown(Filling(ws, e), Filling(node.weights, e), i, Sum(ws), Sum(node.weights))
  {
    hide *;
    CutsApart(node, i, valid);
    RemoveInChild(node, i, id, valid);
    var rest, ws := node.children[..i] + node.children[i + 1..], node.weights[..i] + node.weights[i + 1..];
    var d, e := node.direction, Extent(r, node.direction);
    PositiveJoin(node.weights[..i], node.weights[i + 1..]);
    assert node.children[..i] + [] + node.children[i + 1..] == rest && node.weights[..i] + [] + node.weights[i + 1..] == ws;
    RegroupDrawn(node.id, d, rest, ws, r);
    RowDrawn(node, r);
    GrownByShare(node.weights, i, e);
  }

  lemma GrownByShare(weights: seq<real>, i: nat, extent: real)
    requires i < |weights| && |weights| >= 2 && Positive(weights)
    ensures var ws := weights[..i] + weights[i + 1..];
            Positive(ws) && Grown(Filling(ws, extent), Filling(weights, extent), i, Sum(ws), Sum(weights))
  {
    hide Filling, Sum;
    var ws := weights[..i] + weights[i + 1..];
    PositiveJoin(weights[..i], weights[i + 1..]);
    forall j | 0 <= j < |ws|
      ensures Filling(ws, extent)[j] * Sum(ws) == Filling(weights, extent)[if j < i then j else j + 1] * Sum(weights)
    {
      FillingShare(ws, extent, j);
      FillingShare(weights, extent, if j < i then j else j + 1);
    }
  }

  lemma PositiveJoin(u: seq<real>, v: seq<real>)
    requires Positive(u) && Positive(v)
    ensures Positive(u + v)
  {
  }

  lemma RowDrawn(split: Node, r: Rect)
    requires split.Split? && |split.children| == |split.weights| >= 1 && Positive(split.weights)
    ensures var d := split.direction;
            Panes(split, r) == Row(d, split.children, Filling(split.weights, Extent(r, d)), Start(r, d), CrossStart(r, d), Cross(r, d))
  {
    hide Row, Sum;
    AlignedTotal(split);
  }

  lemma RegroupDrawn(id: string, direction: Direction, nodes: seq<Node>, weights: seq<real>, r: Rect)
    requires |nodes| == |weights| >= 1 && Positive(weights)
    ensures var n := Regroup(id, direction, nodes, weights);
            n.Some? && Panes(n.value, r) == Row(direction, nodes, Filling(weights, Extent(r, direction)), Start(r, direction),
                                                CrossStart(r, direction), Cross(r, direction))
  {
    var split := Split(id, direction, nodes, weights);
    AlignedTotal(split);
    RowDrawn(split, r);
    if |nodes| == 1 {
      OneChildFillsSplit(split, r);
    }
    hide Panes, Row, Filling;
  }
}
