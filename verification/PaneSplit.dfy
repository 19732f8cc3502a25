/** Splitting a pane: halves in the picture, and the merge shortcut against plain nesting. */
module PaneSplit {
  import opened PaneTree
  import opened PaneGeometry

  datatype Position = Top | Right | Bottom | Left

  function DirectionOf(position: Position): Direction {
    if position == Left || position == Right then Horizontal else Vertical
  }

  predicate InsertBefore(position: Position) {
    position == Left || position == Top
  }

  /** What a split call is given: the pane to split, the new terminal, the side and the new split's id. */
  datatype Request = Request(target: string, newId: string, position: Position, splitId: string)

  /** children.findIndex((child) => contains(child, id)) from an index on, with the length in place of -1. */
  function FirstContainingFrom(children: seq<Node>, id: string, from: nat): (i: nat)
    requires from <= |children|
    ensures from <= i <= |children|
    ensures i < |children| ==> id in Terminals(children[i])
    ensures forall k :: from <= k < i ==> id !in Terminals(children[k])
    decreases |children| - from
  {
    hide Terminals;
    if from == |children| || id in Terminals(children[from]) then from else FirstContainingFrom(children, id, from + 1)
  }

  function FirstContaining(children: seq<Node>, id: string): (i: nat)
    ensures i <= |children|
    ensures i < |children| ==> id in Terminals(children[i])
    ensures forall k :: 0 <= k < i ==> id !in Terminals(children[k])
  {
    FirstContainingFrom(children, id, 0)
  }

  function Pair(leaf: Node, q: Request): seq<Node> {
    if InsertBefore(q.position) then [NewLeaf(q.newId), leaf] else [leaf, NewLeaf(q.newId)]
  }

  lemma PairLength(leaf: Node, q: Request)
    ensures |Pair(leaf, q)| == 2
  {
  }

  function Nested(leaf: Node, q: Request): Node {
    Split(q.splitId, DirectionOf(q.position), Pair(leaf, q), [1.0, 1.0])
  }

  datatype SplitResult = SplitResult(node: Node, didSplit: bool, mergeIntoParent: bool)

  function EvenWeights(weight: real, parts: nat): (ws: seq<real>)
    requires parts > 0
    ensures |ws| == parts
  {
    seq(parts, _ => WeightAt([weight], 0) / parts as real)
  }

  /** splitLayoutNode */
  function SplitNode(node: Node, q: Request): SplitResult
    decreases node
  {
    var same := SplitResult(node, false, false);
    match node
    case Leaf(_, ids, _, _) =>
      if q.target !in ids then same else SplitResult(Nested(node, q), true, true)
    case Split(id, direction, children, weights) =>
      var i := FirstContaining(children, q.target);
      if i == |children| then same
      else
        var child := SplitNode(children[i], q);
        if !child.didSplit then same
        else
          var ws := SplitWeights(|children|, weights);
          if direction == DirectionOf(q.position) && child.mergeIntoParent && SameDirection(child.node, direction)
             && child.node.children != [] then
            var merged := child.node.children;
            SplitResult(Split(id, direction,
                              children[..i] + merged + children[i + 1..],
                              ws[..i] + EvenWeights(ws[i], |merged|) + ws[i + 1..]), true, false)
          else
            SplitResult(Split(id, direction, children[..i] + [child.node] + children[i + 1..], ws), true, false)
  }

  // ----- the picture after a split -----

  function Halves(p: Pane, q: Request): seq<Pane>
  {
    var d := DirectionOf(q.position);
    var half := Extent(p.rect, d) / 2.0;
    var first := Strip(d, Start(p.rect, d), half, CrossStart(p.rect, d), Cross(p.rect, d));
    var second := Strip(d, Start(p.rect, d) + half, half, CrossStart(p.rect, d), Cross(p.rect, d));
    [Pane(Pair(p.leaf, q)[0], first), Pane(Pair(p.leaf, q)[1], second)]
  }

  predicate Shows(p: Pane, id: string) {
    p.leaf.Leaf? && id in p.leaf.terminalIds
  }

  predicate NoneShows(panes: seq<Pane>, id: string) {
    forall i :: 0 <= i < |panes| ==> !Shows(panes[i], id)
  }

  /** The first pane showing the target gives way to its two halves; every other pane stays. */
  function SplitPane(panes: seq<Pane>, q: Request): seq<Pane> {
    if panes == [] then []
    else if Shows(panes[0], q.target) then Halves(panes[0], q) + panes[1..]
    else [panes[0]] + SplitPane(panes[1..], q)
  }

  lemma {:induction false} SplitPaneAfter(a: seq<Pane>, b: seq<Pane>, q: Request)
    requires NoneShows(a, q.target)
    ensures SplitPane(a + b, q) == a + SplitPane(b, q)
  {
    if a == [] {
      assert a + b == b;
    } else {
      assert (a + b)[1..] == a[1..] + b;
      SplitPaneAfter(a[1..], b, q);
    }
  }

  lemma {:induction false} SplitPaneBefore(a: seq<Pane>, b: seq<Pane>, q: Request)
    requires !NoneShows(a, q.target)
    ensures SplitPane(a + b, q) == SplitPane(a, q) + b
  {
    assert (a + b)[1..] == a[1..] + b;
    if !Shows(a[0], q.target) {
      SplitPaneBefore(a[1..], b, q);
    }
  }

  /** A terminal is listed in a normal tree exactly when one of its panes shows it. */
  lemma {:induction false} ShownInPanes(node: Node, valid: set<string>, id: string, r: Rect)
    requires Normal(node, valid)
    ensures NoneShows(Panes(node, r), id) <==> id !in Terminals(node)
    decreases node, 0
  {
    match node
    case Leaf(_, _, _, _) => NormalLeafFixed(node, valid); assert Shows(Panes(node, r)[0], id) <==> id in node.terminalIds;
    case Split(_, direction, children, _) =>
      ShownInRow(children, valid, id, direction, Extents(node, r), Start(r, direction),
                 CrossStart(r, direction), Cross(r, direction));
  }

  lemma NoneListed(nodes: seq<Node>, id: string)
    requires nodes == []
    ensures id !in AllTerminals(nodes) && NoneShows([], id)
  {
  }

  lemma AllTerminalsUncons(nodes: seq<Node>)
    requires nodes != []
    ensures AllTerminals(nodes) == Terminals(nodes[0]) + AllTerminals(nodes[1..])
  {
    hide Terminals;
  }

  lemma {:induction false} ShownInRow(nodes: seq<Node>, valid: set<string>, id: string, direction: Direction,
                                      lengths: seq<real>, at: real, crossAt: real, cross: real)
    requires |lengths| == |nodes|
    requires forall c <- nodes :: Normal(c, valid)
    ensures NoneShows(Row(direction, nodes, lengths, at, crossAt, cross), id) <==> id !in AllTerminals(nodes)
    decreases nodes, 0
  {
    hide *;
    if nodes == [] {
      RowNothing(direction, at, crossAt, cross);
      NoneListed(nodes, id);
    } else {
      var strip := Strip(direction, at, lengths[0], crossAt, cross);
      assert nodes[0] in nodes;
      ShownInPanes(nodes[0], valid, id, strip);
      ShownInRow(nodes[1..], valid, id, direction, lengths[1..], at + lengths[0], crossAt, cross);
      NoneShowsConcat(Panes(nodes[0], strip), Row(direction, nodes[1..], lengths[1..], at + lengths[0], crossAt, cross), id);
      RowUncons(direction, nodes, lengths, at, crossAt, cross);
      AllTerminalsUncons(nodes);
    }
  }

  lemma NoneShowsConcat(a: seq<Pane>, b: seq<Pane>, id: string)
    ensures NoneShows(a + b, id) <==> NoneShows(a, id) && NoneShows(b, id)
  {
    var u := a + b;
    assert forall i :: 0 <= i < |a| ==> u[i] == a[i];
    assert forall j :: 0 <= j < |b| ==> u[|a| + j] == b[j];
    if NoneShows(u, id) {
      forall j | 0 <= j < |b|
        ensures !Shows(b[j], id)
      {
        assert u[|a| + j] == b[j];
      }
    }
  }

  /** Row of three stretches. */
  lemma RowAround(direction: Direction, a: seq<Node>, m: seq<Node>, b: seq<Node>,
                  la: seq<real>, lm: seq<real>, lb: seq<real>, at: real, crossAt: real, cross: real)
    requires |la| == |a| && |lm| == |m| && |lb| == |b|
    ensures Row(direction, a + m + b, la + lm + lb, at, crossAt, cross)
         == Row(direction, a, la, at, crossAt, cross)
          + Row(direction, m, lm, at + Sum(la), crossAt, cross)
          + Row(direction, b, lb, at + Sum(la) + Sum(lm), crossAt, cross)
  {
    RowConcat(direction, a + m, b, la + lm, lb, at, crossAt, cross);
    RowConcat(direction, a, m, la, lm, at, crossAt, cross);
    SumConcat(la, lm);
  }

  /** The children before the first one holding a terminal do not hold it. */
  lemma {:induction false} NotAmong(nodes: seq<Node>, id: string)
    requires forall c <- nodes :: id !in Terminals(c)
    ensures id !in AllTerminals(nodes)
  {
    if nodes != [] {
      NotAmong(nodes[1..], id);
    }
  }

  lemma {:induction false} FirstContainingFound(nodes: seq<Node>, id: string)
    requires id in AllTerminals(nodes)
    ensures FirstContaining(nodes, id) < |nodes|
  {
    hide Terminals;
    if FirstContaining(nodes, id) == |nodes| {
      NotAmong(nodes, id);
    }
  }

  lemma {:induction false} SplitHappens(node: Node, q: Request, valid: set<string>)
    requires Normal(node, valid) && q.target in Terminals(node)
    ensures var s := SplitNode(node, q);
            s.didSplit && (s.mergeIntoParent <==> node.Leaf?) && (node.Leaf? ==> s.node == Nested(node, q))
    ensures node.Split? ==> SplitNode(node, q).node.Split? && SplitNode(node, q).node.direction == node.direction
    decreases node
  {
    match node
    case Leaf(_, _, _, _) => NormalLeafFixed(node, valid);
    case Split(_, _, children, _) =>
      FirstContainingFound(children, q.target);
      SplitHappens(children[FirstContaining(children, q.target)], q, valid);
  }

  /** A row in which one child is exchanged for a row of the same total length. */
  lemma RowSplit(direction: Direction, a: seq<Node>, c: Node, b: seq<Node>, m: seq<Node>,
                 la: seq<real>, l: real, lb: seq<real>, lm: seq<real>, valid: set<string>, q: Request,
                 at: real, crossAt: real, cross: real)
    requires |la| == |a| && |lb| == |b| && |lm| == |m| && Sum(lm) == l
    requires forall n <- a :: Normal(n, valid)
    requires q.target !in AllTerminals(a)
    requires !NoneShows(Panes(c, Strip(direction, at + Sum(la), l, crossAt, cross)), q.target)
    requires Row(direction, m, lm, at + Sum(la), crossAt, cross)
          == SplitPane(Panes(c, Strip(direction, at + Sum(la), l, crossAt, cross)), q)
    ensures Row(direction, a + m + b, la + lm + lb, at, crossAt, cross)
         == SplitPane(Row(direction, a + [c] + b, la + [l] + lb, at, crossAt, cross), q)
  {
    hide *;
    RowAround(direction, a, m, b, la, lm, lb, at, crossAt, cross);
    RowAroundOne(direction, a, c, b, la, l, lb, at, crossAt, cross);
    ShownInRow(a, valid, q.target, direction, la, at, crossAt, cross);
    SplitInside(Row(direction, a, la, at, crossAt, cross), Panes(c, Strip(direction, at + Sum(la), l, crossAt, cross)),
                Row(direction, b, lb, at + Sum(la) + l, crossAt, cross), q);
  }

  lemma RowAroundOne(direction: Direction, a: seq<Node>, c: Node, b: seq<Node>, la: seq<real>, l: real, lb: seq<real>,
                     at: real, crossAt: real, cross: real)
    requires |la| == |a| && |lb| == |b|
    ensures Row(direction, a + [c] + b, la + [l] + lb, at, crossAt, cross)
         == Row(direction, a, la, at, crossAt, cross)
          + Panes(c, Strip(direction, at + Sum(la), l, crossAt, cross))
          + Row(direction, b, lb, at + Sum(la) + l, crossAt, cross)
  {
    assert [l][1..] == [] && Sum([l]) == l;
    hide *;
    RowAround(direction, a, [c], b, la, [l], lb, at, crossAt, cross);
    RowOne(direction, c, l, at + Sum(la), crossAt, cross);
  }

  lemma SplitInside(before: seq<Pane>, pane: seq<Pane>, after: seq<Pane>, q: Request)
    requires NoneShows(before, q.target) && !NoneShows(pane, q.target)
    ensures SplitPane(before + pane + after, q) == before + SplitPane(pane, q) + after
  {
    SplitPaneAfter(before, pane + after, q);
    SplitPaneBefore(pane, after, q);
    assert before + pane + after == before + (pane + after);
    assert before + SplitPane(pane, q) + after == before + (SplitPane(pane, q) + after);
  }

  lemma HalfLengths(w: real, unit: real)
    ensures Scaled([w / 2.0, w / 2.0], unit) == [Length(w, unit) / 2.0, Length(w, unit) / 2.0]
  {
    var s := Scaled([w / 2.0, w / 2.0], unit);
    assert s[0] == Length(w / 2.0, unit) && s[1] == Length(w / 2.0, unit);
    assert (w / 2.0) * unit == (w * unit) / 2.0;
  }

  lemma PairRow(direction: Direction, leaf: Node, q: Request, l: real, at: real, crossAt: real, cross: real)
    requires leaf.Leaf? && direction == DirectionOf(q.position) && q.target in leaf.terminalIds
    ensures Row(direction, Pair(leaf, q), [l / 2.0, l / 2.0], at, crossAt, cross)
         == SplitPane(Panes(leaf, Strip(direction, at, l, crossAt, cross)), q)
    ensures Sum([l / 2.0, l / 2.0]) == l
  {
    var pair, h := Pair(leaf, q), l / 2.0;
    assert pair == [pair[0]] + [pair[1]] && [h, h] == [h] + [h];
    RowConcat(direction, [pair[0]], [pair[1]], [h], [h], at, crossAt, cross);
    RowOne(direction, pair[0], h, at, crossAt, cross);
    assert [h][1..] == [] && Sum([h]) == h;
    SumConcat([h], [h]);
    RowOne(direction, pair[1], h, at + h, crossAt, cross);
    var p := Panes(leaf, Strip(direction, at, l, crossAt, cross));
    assert Shows(p[0], q.target) && p[1..] == [];
  }

  lemma HalfOf(e: real)
    ensures 1.0 * (e / 2.0) == e / 2.0
  {
  }

  lemma NestedExtents(leaf: Node, q: Request, r: Rect)
    ensures var e := Extent(r, DirectionOf(q.position)); Extents(Nested(leaf, q), r) == [e / 2.0, e / 2.0]
  {
    var e := Extent(r, DirectionOf(q.position));
    var ones := [1.0, 1.0];
    assert SplitWeights(2, ones) == ones;
    OnesSum();
    assert |Pair(leaf, q)| == 2;
    assert Extents(Nested(leaf, q), r) == Scaled(ones, e / 2.0);
    hide Extents;
    ScaledOnes(e);
  }

  lemma OnesSum()
    ensures Sum([1.0, 1.0]) == 2.0
  {
    assert [1.0, 1.0] == [1.0] + [1.0] && [1.0][1..] == [];
    SumConcat([1.0], [1.0]);
  }

  lemma ScaledOnes(e: real)
    ensures Scaled([1.0, 1.0], e / 2.0) == [e / 2.0, e / 2.0]
  {
    HalfOf(e);
  }

  /** The root case: a lone pane becomes a split of two equal halves. */
  lemma NestedPanes(leaf: Node, q: Request, r: Rect)
    requires leaf.Leaf? && q.target in leaf.terminalIds
    ensures Panes(Nested(leaf, q), r) == SplitPane(Panes(leaf, r), q)
  {
    var d := DirectionOf(q.position);
    var e := Extent(r, d);
    NestedExtents(leaf, q, r);
    hide Extents, Length;
    PairRow(d, leaf, q, e, Start(r, d), CrossStart(r, d), Cross(r, d));
    assert Strip(d, Start(r, d), e, CrossStart(r, d), Cross(r, d)) == r;
  }

  lemma Sum3(a: seq<real>, m: seq<real>, b: seq<real>)
    ensures Sum(a + m + b) == Sum(a) + Sum(m) + Sum(b)
  {
    SumConcat(a + m, b);
    SumConcat(a, m);
  }

  lemma Scaled3(a: seq<real>, m: seq<real>, b: seq<real>, unit: real)
    ensures Scaled(a + m + b, unit) == Scaled(a, unit) + Scaled(m, unit) + Scaled(b, unit)
  {
    ScaledConcat(a + m, b, unit);
    ScaledConcat(a, m, unit);
  }

  lemma EvenPair(w: real)
    requires w > 0.0
    ensures EvenWeights(w, 2) == [w / 2.0, w / 2.0]
    ensures Sum([w / 2.0, w / 2.0]) == w == Sum([w])
    ensures Positive([w / 2.0, w / 2.0]) && Positive([w / 2.0])
  {
    assert WeightAt([w], 0) == w;
    var h := w / 2.0;
    assert [h, h][1..] == [h] && [h][1..] == [] && [w][1..] == [];
    assert Sum([h]) == h;
  }

  /** The lengths of the children before, at and after the one with weight w, in a row of the given extent. */
  function Cut(u: seq<real>, w: real, v: seq<real>, extent: real): (lengths: (seq<real>, real, seq<real>))
    requires Positive(u) && Positive(v) && w > 0.0
    ensures |lengths.0| == |u| && |lengths.2| == |v|
  {
    SumPositive(u + [w] + v);
    var unit := extent / Sum(u + [w] + v);
    (Scaled(u, unit), Length(w, unit), Scaled(v, unit))
  }

  lemma CutIsExtents(split: Node, u: seq<real>, w: real, v: seq<real>, r: Rect)
    requires Positive(u) && Positive(v) && w > 0.0
    requires split.Split? && split.weights == u + [w] + v && |split.children| == |split.weights|
    ensures var cut := Cut(u, w, v, Extent(r, split.direction)); Extents(split, r) == cut.0 + [cut.1] + cut.2
  {
    AlignedTotal(split);
    var unit := Extent(r, split.direction) / Sum(u + [w] + v);
    ScaledOne(w, unit);
    Scaled3(u, [w], v, unit);
  }

  lemma CutIsMergedExtents(split: Node, u: seq<real>, w: real, v: seq<real>, r: Rect)
    requires Positive(u) && Positive(v) && w > 0.0
    requires split.Split? && split.weights == u + EvenWeights(w, 2) + v && |split.children| == |split.weights|
    ensures var cut := Cut(u, w, v, Extent(r, split.direction));
            Extents(split, r) == cut.0 + [cut.1 / 2.0, cut.1 / 2.0] + cut.2
  {
    EvenPair(w);
    Sum3(u, [w / 2.0, w / 2.0], v);
    Sum3(u, [w], v);
    AlignedTotal(split);
    var unit := Extent(r, split.direction) / Sum(u + [w] + v);
    HalfLengths(w, unit);
    Scaled3(u, [w / 2.0, w / 2.0], v, unit);
  }

  lemma CutPanes(split: Node, u: seq<real>, w: real, v: seq<real>, r: Rect)
    requires Positive(u) && Positive(v) && w > 0.0
    requires split.Split? && split.weights == u + [w] + v && |split.children| == |split.weights|
    ensures var cut := Cut(u, w, v, Extent(r, split.direction));
            Panes(split, r) == Row(split.direction, split.children, cut.0 + [cut.1] + cut.2, Start(r, split.direction),
                                   CrossStart(r, split.direction), Cross(r, split.direction))
  {
    hide *;
    PanesAreRow(split, r);
    CutIsExtents(split, u, w, v, r);
  }

  lemma CutMergedPanes(split: Node, u: seq<real>, w: real, v: seq<real>, r: Rect)
    requires Positive(u) && Positive(v) && w > 0.0
    requires split.Split? && split.weights == u + EvenWeights(w, 2) + v && |split.children| == |split.weights|
    ensures var cut := Cut(u, w, v, Extent(r, split.direction));
            Panes(split, r) == Row(split.direction, split.children, cut.0 + [cut.1 / 2.0, cut.1 / 2.0] + cut.2, Start(r, split.direction),
                                   CrossStart(r, split.direction), Cross(r, split.direction))
  {
    hide *;
    PanesAreRow(split, r);
    CutIsMergedExtents(split, u, w, v, r);
  }

  lemma LeafShows(leaf: Node, id: string, r: Rect)
    requires leaf.Leaf? && id in leaf.terminalIds
    ensures !NoneShows(Panes(leaf, r), id)
  {
    assert Shows(Panes(leaf, r)[0], id);
  }

  /** The child holding the target is a pane of the row's own direction: its two halves join the row. */
  lemma MergedPanes(id: string, direction: Direction, a: seq<Node>, c: Node, b: seq<Node>,
                    u: seq<real>, w: real, v: seq<real>, valid: set<string>, q: Request, r: Rect)
    requires |u| == |a| && |v| == |b| && Positive(u) && Positive(v) && w > 0.0
    requires forall n <- a :: Normal(n, valid)
    requires q.target !in AllTerminals(a) && c.Leaf? && q.target in c.terminalIds
    requires direction == DirectionOf(q.position)
    ensures Panes(Split(id, direction, a + Pair(c, q) + b, u + EvenWeights(w, 2) + v), r)
         == SplitPane(Panes(Split(id, direction, a + [c] + b, u + [w] + v), r), q)
  {
    hide *;
    PairLength(c, q);
    var before := Split(id, direction, a + [c] + b, u + [w] + v);
    var after := Split(id, direction, a + Pair(c, q) + b, u + EvenWeights(w, 2) + v);
    CutPanes(before, u, w, v, r);
    CutMergedPanes(after, u, w, v, r);
    var cut := Cut(u, w, v, Extent(r, direction));
    RowSplitPair(direction, a, c, b, cut.0, cut.1, cut.2, valid, q, Start(r, direction), CrossStart(r, direction), Cross(r, direction));
  }

  lemma RowSplitPair(direction: Direction, a: seq<Node>, c: Node, b: seq<Node>, la: seq<real>, l: real, lb: seq<real>,
                     valid: set<string>, q: Request, at: real, crossAt: real, cross: real)
    requires |la| == |a| && |lb| == |b|
    requires forall n <- a :: Normal(n, valid)
    requires q.target !in AllTerminals(a) && c.Leaf? && q.target in c.terminalIds
    requires direction == DirectionOf(q.position)
    ensures |Pair(c, q)| == 2
    ensures Row(direction, a + Pair(c, q) + b, la + [l / 2.0, l / 2.0] + lb, at, crossAt, cross)
         == SplitPane(Row(direction, a + [c] + b, la + [l] + lb, at, crossAt, cross), q)
  {
    assert |Pair(c, q)| == 2;
    hide *;
    PairRow(direction, c, q, l, at + Sum(la), crossAt, cross);
    LeafShows(c, q.target, Strip(direction, at + Sum(la), l, crossAt, cross));
    RowSplit(direction, a, c, b, Pair(c, q), la, l, lb, [l / 2.0, l / 2.0], valid, q, at, crossAt, cross);
  }

  /** The strip of the child with weight w between siblings weighing u and v. */
  function ChildRect(direction: Direction, u: seq<real>, w: real, v: seq<real>, r: Rect): Rect
    requires Positive(u) && Positive(v) && w > 0.0
  {
    var cut := Cut(u, w, v, Extent(r, direction));
    Strip(direction, Start(r, direction) + Sum(cut.0), cut.1, CrossStart(r, direction), Cross(r, direction))
  }

  lemma ChildRectIs(direction: Direction, u: seq<real>, w: real, v: seq<real>, r: Rect)
    requires Positive(u) && Positive(v) && w > 0.0
    ensures var cut := Cut(u, w, v, Extent(r, direction));
            ChildRect(direction, u, w, v, r)
            == Strip(direction, Start(r, direction) + Sum(cut.0), cut.1, CrossStart(r, direction), Cross(r, direction))
  {
    hide Cut, Strip, Sum, Extent;
  }

  /** Otherwise the child itself is split, within its own strip. */
  lemma DeeperPanes(id: string, direction: Direction, a: seq<Node>, c: Node, b: seq<Node>, split: Node,
                    u: seq<real>, w: real, v: seq<real>, valid: set<string>, q: Request, r: Rect)
    requires |u| == |a| && |v| == |b| && Positive(u) && Positive(v) && w > 0.0
    requires forall n <- a :: Normal(n, valid)
    requires Normal(c, valid) && q.target in Terminals(c)
    requires q.target !in AllTerminals(a)
    requires var s := ChildRect(direction, u, w, v, r); Panes(split, s) == SplitPane(Panes(c, s), q)
    ensures Panes(Split(id, direction, a + [split] + b, u + [w] + v), r)
         == SplitPane(Panes(Split(id, direction, a + [c] + b, u + [w] + v), r), q)
  {
    hide *;
    var before, after := Split(id, direction, a + [c] + b, u + [w] + v), Split(id, direction, a + [split] + b, u + [w] + v);
    CutPanes(before, u, w, v, r);
    CutPanes(after, u, w, v, r);
    ChildRectIs(direction, u, w, v, r);
    var cut := Cut(u, w, v, Extent(r, direction));
    ShownInPanes(c, valid, q.target, ChildRect(direction, u, w, v, r));
    RowSplitOne(direction, a, c, b, split, cut.0, cut.1, cut.2, valid, q, Start(r, direction), CrossStart(r, direction), Cross(r, direction));
  }

  lemma RowSplitOne(direction: Direction, a: seq<Node>, c: Node, b: seq<Node>, split: Node,
                    la: seq<real>, l: real, lb: seq<real>, valid: set<string>, q: Request,
                    at: real, crossAt: real, cross: real)
    requires |la| == |a| && |lb| == |b|
    requires forall n <- a :: Normal(n, valid)
    requires q.target !in AllTerminals(a)
    requires var s := Strip(direction, at + Sum(la), l, crossAt, cross);
             !NoneShows(Panes(c, s), q.target) && Panes(split, s) == SplitPane(Panes(c, s), q)
    ensures Row(direction, a + [split] + b, la + [l] + lb, at, crossAt, cross)
         == SplitPane(Row(direction, a + [c] + b, la + [l] + lb, at, crossAt, cross), q)
  {
    assert [l][1..] == [] && Sum([l]) == l;
    RowOne(direction, split, l, at + Sum(la), crossAt, cross);
    hide Panes, Row, SplitPane;
    RowSplit(direction, a, c, b, [split], la, l, lb, [l], valid, q, at, crossAt, cross);
  }

  /** A pane directly inside a split of the requested direction is merged into that split's row. */
  predicate MergesAt(split: Node, i: nat, q: Request)
    requires split.Split? && i < |split.children|
  {
    split.children[i].Leaf? && split.direction == DirectionOf(q.position)
  }

  /** The two results a split node can have. */
  lemma SplitShape(node: Node, q: Request, valid: set<string>) returns (i: nat)
    requires Normal(node, valid) && node.Split? && q.target in Terminals(node)
    ensures i < |node.children| && q.target in Terminals(node.children[i])
    ensures q.target !in AllTerminals(node.children[..i])
    ensures i == FirstContaining(node.children, q.target)
    ensures SplitNode(node, q).didSplit
    ensures SplitNode(node, q).node ==
            if MergesAt(node, i, q) then
              Split(node.id, node.direction, node.children[..i] + Pair(node.children[i], q) + node.children[i + 1..],
                    node.weights[..i] + EvenWeights(node.weights[i], 2) + node.weights[i + 1..])
            else
              Split(node.id, node.direction, node.children[..i] + [SplitNode(node.children[i], q).node] + node.children[i + 1..],
                    node.weights)
  {
    FirstContainingFound(node.children, q.target);
    i := FirstContaining(node.children, q.target);
    var c := node.children[i];
    SplitHappens(c, q, valid);
    NotAmong(node.children[..i], q.target);
    assert SplitWeights(|node.children|, node.weights) == node.weights;
    hide Terminals, PaneIds, CleanIds, FirstContaining, EvenWeights, SplitWeights;
    assert !SameDirection(c, node.direction);
    var s := SplitNode(c, q);
    if c.Leaf? {
      assert s.node == Nested(c, q) && s.mergeIntoParent && |Pair(c, q)| == 2;
    } else {
      assert !s.mergeIntoParent;
    }
    hide Normal, SplitNode;
    SplitUnfolds(node, q, i);
  }

  lemma SplitUnfolds(node: Node, q: Request, i: nat)
    requires node.Split? && i == FirstContaining(node.children, q.target) && i < |node.children|
    requires SplitNode(node.children[i], q).didSplit
    ensures var s := SplitNode(node.children[i], q);
            var ws := SplitWeights(|node.children|, node.weights);
            SplitNode(node, q) ==
            if node.direction == DirectionOf(q.position) && s.mergeIntoParent && SameDirection(s.node, node.direction)
               && s.node.children != [] then
              SplitResult(Split(node.id, node.direction,
                                node.children[..i] + s.node.children + node.children[i + 1..],
                                ws[..i] + EvenWeights(ws[i], |s.node.children|) + ws[i + 1..]), true, false)
            else
              SplitResult(Split(node.id, node.direction, node.children[..i] + [s.node] + node.children[i + 1..], ws), true, false)
  {
    hide Terminals, EvenWeights, SplitWeights, FirstContaining;
  }

  /**
   * Splitting a pane of a normal tree gives the old and the new pane exactly half of the old
   * rectangle each and leaves every other pane's rectangle alone, merged into a row or not.
   */
  lemma {:induction false} SplitHalvesPane(node: Node, q: Request, valid: set<string>, r: Rect)
    requires Normal(node, valid) && q.target in Terminals(node)
    ensures Panes(SplitNode(node, q).node, r) == SplitPane(Panes(node, r), q)
    decreases node
  {
    hide Cut, Extents, PaneIds, CleanIds, Panes, SplitPane, SplitNode, AllTerminals, EvenWeights, FirstContaining;
    match node
    case Leaf(_, _, _, _) =>
      NormalLeafFixed(node, valid);
      SplitHappens(node, q, valid);
      NestedPanes(node, q, r);
    case Split(id, direction, children, weights) =>
      var i := SplitShape(node, q, valid);
      var a, c, b := children[..i], children[i], children[i + 1..];
      var u, w, v := weights[..i], weights[i], weights[i + 1..];
      assert children == a + [c] + b && weights == u + [w] + v;
      assert Normal(c, valid) && Positive(u) && Positive(v) && w > 0.0;
      if MergesAt(node, i, q) {
        NormalLeafFixed(c, valid);
        MergedPanes(id, direction, a, c, b, u, w, v, valid, q, r);
      } else {
        SplitHalvesPane(c, q, valid, ChildRect(direction, u, w, v, r));
        DeeperPanes(id, direction, a, c, b, SplitNode(c, q).node, u, w, v, valid, q, r);
      }
  }
}
