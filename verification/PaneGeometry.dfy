/** The picture a pane tree describes: every pane's rectangle, and why flattening does not change it. */
module PaneGeometry {
  import opened PaneTree
  import opened PaneNormal

  datatype Rect = Rect(x: real, y: real, w: real, h: real)
  datatype Pane = Pane(leaf: Node, rect: Rect)

  function Extent(r: Rect, direction: Direction): real {
    if direction == Horizontal then r.w else r.h
  }

  /** Where a rectangle starts along a direction, and the start and extent across it. */
  function Start(r: Rect, direction: Direction): real {
    if direction == Horizontal then r.x else r.y
  }

  function CrossStart(r: Rect, direction: Direction): real {
    if direction == Horizontal then r.y else r.x
  }

  function Cross(r: Rect, direction: Direction): real {
    if direction == Horizontal then r.h else r.w
  }

  function Strip(direction: Direction, at: real, extent: real, crossAt: real, cross: real): Rect {
    if direction == Horizontal then Rect(at, crossAt, extent, cross) else Rect(crossAt, at, cross, extent)
  }

  /** The panes of a tree drawn in r, left to right: a split shares its extent in proportion to the weights. */
  function Panes(node: Node, r: Rect): seq<Pane>
    decreases node, 0
  {
    match node
    case Leaf(_, _, _, _) => [Pane(node, r)]
    case Split(_, direction, children, weights) =>
      if children == [] then []
      else
        Row(direction, children, Extents(node, r), Start(r, direction), CrossStart(r, direction), Cross(r, direction))
  }

  /** The lengths of a split's children along its direction: its own length in proportion to the weights. */
  function Extents(split: Node, r: Rect): (lengths: seq<real>)
    requires split.Split? && split.children != []
    ensures |lengths| == |split.children|
  {
    var ws := SplitWeights(|split.children|, split.weights);
    SumPositive(ws);
    Scaled(ws, Extent(r, split.direction) / Sum(ws))
  }

  function Length(weight: real, unit: real): real {
    weight * unit
  }

  function Scaled(weights: seq<real>, unit: real): (lengths: seq<real>)
    ensures |lengths| == |weights|
    ensures forall i :: 0 <= i < |weights| ==> lengths[i] == Length(weights[i], unit)
  {
    seq(|weights|, i requires 0 <= i < |weights| => Length(weights[i], unit))
  }

  /** Children side by side from position at, with the given lengths. */
  function Row(direction: Direction, children: seq<Node>, lengths: seq<real>,
               at: real, crossAt: real, cross: real): seq<Pane>
    requires |lengths| == |children|
    decreases children, 1
  {
    if children == [] then []
    else
      Panes(children[0], Strip(direction, at, lengths[0], crossAt, cross))
      + Row(direction, children[1..], lengths[1..], at + lengths[0], crossAt, cross)
  }

  // ----- rows -----

  lemma RowUncons(direction: Direction, nodes: seq<Node>, lengths: seq<real>, at: real, crossAt: real, cross: real)
    requires |lengths| == |nodes| && nodes != []
    ensures Row(direction, nodes, lengths, at, crossAt, cross)
         == Panes(nodes[0], Strip(direction, at, lengths[0], crossAt, cross))
          + Row(direction, nodes[1..], lengths[1..], at + lengths[0], crossAt, cross)
  {
    hide Panes, Strip;
  }

  lemma RowNothing(direction: Direction, at: real, crossAt: real, cross: real)
    ensures Row(direction, [], [], at, crossAt, cross) == []
  {
  }

  lemma SumNothing(weights: seq<real>)
    requires weights == []
    ensures Sum(weights) == 0.0
  {
  }

  lemma SumUncons(weights: seq<real>)
    requires weights != []
    ensures Sum(weights) == weights[0] + Sum(weights[1..])
  {
  }

  lemma {:induction false} RowConcat(direction: Direction, a: seq<Node>, b: seq<Node>, u: seq<real>, v: seq<real>,
                                     at: real, crossAt: real, cross: real)
    requires |u| == |a| && |v| == |b|
    ensures Row(direction, a + b, u + v, at, crossAt, cross)
         == Row(direction, a, u, at, crossAt, cross) + Row(direction, b, v, at + Sum(u), crossAt, cross)
  {
    hide *;
    if a == [] {
      assert a + b == b && u + v == v;
      RowNothing(direction, at, crossAt, cross);
      SumNothing(u);
    } else {
      RowUncons(direction, a, u, at, crossAt, cross);
      RowUncons(direction, a + b, u + v, at, crossAt, cross);
      SumUncons(u);
      assert (a + b)[1..] == a[1..] + b && (u + v)[1..] == u[1..] + v;
      RowConcat(direction, a[1..], b, u[1..], v, at + u[0], crossAt, cross);
    }
  }

  lemma RowCons(direction: Direction, head: Node, tail: seq<Node>, lengths: seq<real>, at: real, crossAt: real, cross: real)
    requires |lengths| == 1 + |tail|
    ensures Row(direction, [head] + tail, lengths, at, crossAt, cross)
         == Panes(head, Strip(direction, at, lengths[0], crossAt, cross))
          + Row(direction, tail, lengths[1..], at + lengths[0], crossAt, cross)
  {
    assert ([head] + tail)[1..] == tail;
  }

  lemma RowOne(direction: Direction, child: Node, length: real, at: real, crossAt: real, cross: real)
    ensures Row(direction, [child], [length], at, crossAt, cross)
         == Panes(child, Strip(direction, at, length, crossAt, cross))
  {
    assert [child][1..] == [] && [length][1..] == [];
  }

  lemma QuotientIs(a: real, b: real, t: real)
    requires t != 0.0 && b * t == a
    ensures a / t == b
  {
  }

  lemma ScaledOne(weight: real, unit: real)
    ensures Scaled([weight], unit) == [Length(weight, unit)]
  {
    assert Scaled([weight], unit)[0] == Length([weight][0], unit);
  }

  lemma ScaledConcat(a: seq<real>, b: seq<real>, unit: real)
    ensures Scaled(a + b, unit) == Scaled(a, unit) + Scaled(b, unit)
  {
    forall i | 0 <= i < |a + b|
      ensures Scaled(a + b, unit)[i] == (Scaled(a, unit) + Scaled(b, unit))[i]
    {
      assert (a + b)[i] == if i < |a| then a[i] else b[i - |a|];
    }
  }

  lemma {:induction false} SumScaled(weights: seq<real>, unit: real)
    ensures Sum(Scaled(weights, unit)) == Sum(weights) * unit
  {
    if weights != [] {
      SumScaled(weights[1..], unit);
      assert Scaled(weights, unit)[1..] == Scaled(weights[1..], unit);
    }
  }

  // ----- flattening -----

  /** A split as the sanitiser leaves it. */
  predicate Aligned(node: Node) {
    node.Split? ==> |node.children| >= 1 && |node.weights| == |node.children| && Positive(node.weights)
  }

  lemma AlignedTotal(split: Node)
    requires split.Split? && Aligned(split)
    ensures SafeTotal(split) == Sum(split.weights) > 0.0
    ensures SplitWeights(|split.children|, split.weights) == split.weights
  {
    SumPositive(split.weights);
    assert seq(|split.weights|, i requires 0 <= i < |split.weights| => WeightAt(split.weights, i)) == split.weights;
  }

  lemma ShareLength(weight: real, u: real, total: real, unit: real)
    requires total > 0.0
    ensures (weight * u / total) * unit == u * ((weight * unit) / total)
  {
    var q := weight / total;
    assert q * total == weight;
    QuotientIs(weight * u, q * u, total);
    QuotientIs(weight * unit, q * unit, total);
  }

  lemma AlignedWeights(split: Node)
    requires split.Split? && Aligned(split)
    ensures forall j :: 0 <= j < |split.weights| ==> WeightAt(split.weights, j) == split.weights[j]
  {
  }

  /** The shares a flattened child hands to its own children are the lengths those had inside it. */
  lemma SharesAreExtents(child: Node, weight: real, unit: real, r: Rect)
    requires child.Split? && Aligned(child) && Extent(r, child.direction) == Length(weight, unit)
    ensures Scaled(Spread(child.direction, child, weight).1, unit) == Extents(child, r)
    ensures Sum(Extents(child, r)) == Length(weight, unit)
  {
    hide Sum, SafeTotal, SplitWeights, WeightAt;
    AlignedTotal(child);
    AlignedWeights(child);
    var total := Sum(child.weights);
    var shares := Spread(child.direction, child, weight).1;
    var extents := Extents(child, r);
    forall j | 0 <= j < |child.children|
      ensures Length(shares[j], unit) == extents[j]
    {
      ShareLength(weight, child.weights[j], total, unit);
      assert shares[j] == Share(child, weight, j);
    }
    SumScaled(child.weights, (weight * unit) / total);
    assert Scaled(shares, unit) == extents;
  }

  /** Spreading a child over its parent's row draws the same panes over the same stretch. */
  lemma SpreadKeepsPanes(direction: Direction, child: Node, weight: real, unit: real,
                         at: real, crossAt: real, cross: real)
    requires Aligned(child)
    ensures var s := Spread(direction, child, weight);
            && Row(direction, s.0, Scaled(s.1, unit), at, crossAt, cross)
               == Panes(child, Strip(direction, at, Length(weight, unit), crossAt, cross))
            && Sum(Scaled(s.1, unit)) == Length(weight, unit)
  {
    if SameDirection(child, direction) {
      SharesAreExtents(child, weight, unit, Strip(direction, at, Length(weight, unit), crossAt, cross));
    } else {
      ScaledOne(weight, unit);
      RowOne(direction, child, Length(weight, unit), at, crossAt, cross);
      assert [Length(weight, unit)][1..] == [];
    }
  }

  lemma FlattenUncons(direction: Direction, children: seq<Node>, weights: seq<real>)
    requires |weights| == |children| && children != []
    ensures var first, rest := Spread(direction, children[0], weights[0]), Flatten(direction, children[1..], weights[1..]);
            Flatten(direction, children, weights) == (first.0 + rest.0, first.1 + rest.1)
  {
    hide Spread;
  }

  lemma FlattenNothingAtAll(direction: Direction, weights: seq<real>, unit: real)
    requires weights == []
    ensures Flatten(direction, [], weights) == ([], []) && Scaled(weights, unit) == []
  {
  }

  lemma ScaledUncons(weights: seq<real>, unit: real)
    requires weights != []
    ensures Scaled(weights, unit)[0] == Length(weights[0], unit) && Scaled(weights, unit)[1..] == Scaled(weights[1..], unit)
  {
    hide Length;
  }

  lemma {:induction false} FlattenKeepsRow(direction: Direction, children: seq<Node>, weights: seq<real>, unit: real,
                                           at: real, crossAt: real, cross: real)
    requires |weights| == |children|
    requires forall c <- children :: Aligned(c)
    ensures var f := Flatten(direction, children, weights);
            && Row(direction, f.0, Scaled(f.1, unit), at, crossAt, cross)
               == Row(direction, children, Scaled(weights, unit), at, crossAt, cross)
            && Sum(Scaled(f.1, unit)) == Sum(Scaled(weights, unit))
  {
    hide *;
    if children == [] {
      FlattenNothingAtAll(direction, weights, unit);
    } else {
      var w, ws := weights[0], weights[1..];
      var s := Spread(direction, children[0], w);
      var rest := Flatten(direction, children[1..], ws);
      FlattenUncons(direction, children, weights);
      SpreadKeepsPanes(direction, children[0], w, unit, at, crossAt, cross);
      FlattenKeepsRow(direction, children[1..], ws, unit, at + Length(w, unit), crossAt, cross);
      RowConcat(direction, s.0, rest.0, Scaled(s.1, unit), Scaled(rest.1, unit), at, crossAt, cross);
      SumConcat(Scaled(s.1, unit), Scaled(rest.1, unit));
      ScaledConcat(s.1, rest.1, unit);
      ScaledUncons(weights, unit);
      RowUncons(direction, children, Scaled(weights, unit), at, crossAt, cross);
      SumUncons(Scaled(weights, unit));
    }
  }

  lemma FlattenKeepsTotal(direction: Direction, children: seq<Node>, weights: seq<real>)
    requires |weights| == |children|
    requires forall c <- children :: Aligned(c)
    ensures Sum(Flatten(direction, children, weights).1) == Sum(weights)
  {
    FlattenKeepsRow(direction, children, weights, 1.0, 0.0, 0.0, 0.0);
    SumScaled(Flatten(direction, children, weights).1, 1.0);
    SumScaled(weights, 1.0);
  }

  /** Every pane keeps a terminal and no split is empty: sanitising has nothing to drop. */
  predicate Whole(node: Node, valid: set<string>)
    decreases node
  {
    match node
    case Leaf(_, _, _, _) => ValidPaneIds(node, valid) != []
    case Split(_, _, children, _) => children != [] && forall c <- children :: Whole(c, valid)
  }

  /** The same rectangles, each stored pane replaced by its sanitised form. */
  function CleanPanes(panes: seq<Pane>, valid: set<string>): (r: seq<Pane>)
    ensures |r| == |panes|
  {
    if panes == [] then []
    else
      var p := panes[0];
      var leaf := if p.leaf.Leaf? then SanitizeLeaf(p.leaf, valid).GetOr(p.leaf) else p.leaf;
      [Pane(leaf, p.rect)] + CleanPanes(panes[1..], valid)
  }

  lemma {:induction false} CleanPanesConcat(a: seq<Pane>, b: seq<Pane>, valid: set<string>)
    ensures CleanPanes(a + b, valid) == CleanPanes(a, valid) + CleanPanes(b, valid)
  {
    if a == [] {
      assert a + b == b;
    } else {
      assert (a + b)[1..] == a[1..] + b;
      CleanPanesConcat(a[1..], b, valid);
    }
  }

  lemma NormalIsAligned(node: Node, valid: set<string>)
    requires Normal(node, valid)
    ensures Aligned(node)
  {
  }

  lemma OneChildFillsSplit(split: Node, r: Rect)
    requires split.Split? && |split.children| == 1
    ensures Panes(split, r) == Panes(split.children[0], r)
  {
    var w := SplitWeights(1, split.weights)[0];
    var e := Extent(r, split.direction);
    var unit := e / w;
    assert SplitWeights(1, split.weights) == [w];
    assert [w][1..] == [] && Sum([w]) == w;
    ScaledOne(w, unit);
    assert Length(w, unit) == e;
    assert Extents(split, r) == [e];
    assert split.children == [split.children[0]];
    RowOne(split.direction, split.children[0], e, Start(r, split.direction), CrossStart(r, split.direction),
           Cross(r, split.direction));
  }

  /** Rebuilding a split from all its sanitised children draws them where the split had them. */
  lemma RebuildKeepsPanes(id: string, direction: Direction, kept: seq<Node>, weights: seq<real>, valid: set<string>, r: Rect)
    requires kept != [] && forall c <- kept :: Normal(c, valid)
    ensures var n := Rebuild(id, direction, kept, weights);
            n.Some? && Panes(n.value, r) == Panes(Split(id, direction, kept, weights), r)
  {
    forall c <- kept
      ensures Aligned(c)
    {
      NormalIsAligned(c, valid);
    }
    if |kept| == 1 {
      OneChildFillsSplit(Split(id, direction, kept, weights), r);
    } else {
      var ws := SplitWeights(|kept|, weights);
      SumPositive(ws);
      FlattenNormal(direction, kept, ws, valid);
      FlattenKeepsTotal(direction, kept, ws);
      FlattenKeepsRow(direction, kept, ws, Extent(r, direction) / Sum(ws),
                      Start(r, direction), CrossStart(r, direction), Cross(r, direction));
    }
  }

  /**
   * Flattening preserves meaning: when there is nothing to drop, sanitising gives every pane
   * exactly the rectangle it had, in the same left-to-right order.
   */
  lemma {:induction false} SanitizeKeepsPanes(node: Node, valid: set<string>, r: Rect)
    requires Whole(node, valid)
    ensures var n := Sanitize(node, valid);
            n.Some? && Normal(n.value, valid) && Panes(n.value, r) == CleanPanes(Panes(node, r), valid)
    decreases node, 0
  {
    match node
    case Leaf(_, _, _, _) => SanitizeLeafNormal(node, valid);
    case Split(id, direction, children, weights) =>
      SanitizeAllNormal(children, valid);
      var kept := SanitizeAll(children, valid);
      SanitizeAllKeepsRow(direction, children, Extents(node, r), valid,
                          Start(r, direction), CrossStart(r, direction), Cross(r, direction));
      RebuildNormal(id, direction, kept, weights, valid);
      RebuildKeepsPanes(id, direction, kept, weights, valid, r);
  }

  lemma NothingToKeep(nodes: seq<Node>, valid: set<string>)
    requires nodes == []
    ensures SanitizeAll(nodes, valid) == [] && CleanPanes([], valid) == []
  {
  }

  lemma SanitizeAllUncons(nodes: seq<Node>, valid: set<string>)
    requires nodes != [] && Sanitize(nodes[0], valid).Some?
    ensures SanitizeAll(nodes, valid) == [Sanitize(nodes[0], valid).value] + SanitizeAll(nodes[1..], valid)
  {
    hide Sanitize;
  }

  lemma {:induction false} SanitizeAllKeepsRow(direction: Direction, nodes: seq<Node>, lengths: seq<real>,
                                               valid: set<string>, at: real, crossAt: real, cross: real)
    requires |lengths| == |nodes|
    requires forall c <- nodes :: Whole(c, valid)
    ensures |SanitizeAll(nodes, valid)| == |nodes|
    ensures Row(direction, SanitizeAll(nodes, valid), lengths, at, crossAt, cross)
         == CleanPanes(Row(direction, nodes, lengths, at, crossAt, cross), valid)
    decreases nodes, 0
  {
    hide *;
    if nodes == [] {
      NothingToKeep(nodes, valid);
      RowNothing(direction, at, crossAt, cross);
    } else {
      var strip := Strip(direction, at, lengths[0], crossAt, cross);
      assert nodes[0] in nodes;
      SanitizeKeepsPanes(nodes[0], valid, strip);
      SanitizeAllKeepsRow(direction, nodes[1..], lengths[1..], valid, at + lengths[0], crossAt, cross);
      SanitizeAllUncons(nodes, valid);
      RowUncons(direction, nodes, lengths, at, crossAt, cross);
      CleanPanesConcat(Panes(nodes[0], strip),
                       Row(direction, nodes[1..], lengths[1..], at + lengths[0], crossAt, cross), valid);
      RowCons(direction, Sanitize(nodes[0], valid).value, SanitizeAll(nodes[1..], valid), lengths, at, crossAt, cross);
    }
  }

  // ----- the picture tiles its frame -----

  predicate Within(inner: Rect, outer: Rect) {
    && outer.x <= inner.x && inner.x + inner.w <= outer.x + outer.w
    && outer.y <= inner.y && inner.y + inner.h <= outer.y + outer.h
    && inner.w > 0.0 && inner.h > 0.0
  }

  predicate AllWithin(panes: seq<Pane>, r: Rect) {
    forall i :: 0 <= i < |panes| ==> Within(panes[i].rect, r)
  }

  predicate Apart(a: Rect, b: Rect) {
    a.x + a.w <= b.x || b.x + b.w <= a.x || a.y + a.h <= b.y || b.y + b.h <= a.y
  }

  predicate AllApart(panes: seq<Pane>) {
    forall i, j :: 0 <= i < j < |panes| ==> Apart(panes[i].rect, panes[j].rect)
  }

  function RectArea(r: Rect): real {
    r.w * r.h
  }

  function Area(panes: seq<Pane>): real {
    if panes == [] then 0.0 else RectArea(panes[0].rect) + Area(panes[1..])
  }

  /** Panes of positive size inside r, no two overlapping, with the area of r between them. */
  predicate Tiles(panes: seq<Pane>, r: Rect) {
    AllWithin(panes, r) && AllApart(panes) && Area(panes) == RectArea(r)
  }

  lemma {:induction false} AreaConcat(a: seq<Pane>, b: seq<Pane>)
    ensures Area(a + b) == Area(a) + Area(b)
  {
    if a == [] {
      assert a + b == b;
    } else {
      assert (a + b)[1..] == a[1..] + b;
      AreaConcat(a[1..], b);
    }
  }

  predicate NoEmptySplit(node: Node)
    decreases node
  {
    node.Split? ==> node.children != [] && forall c <- node.children :: NoEmptySplit(c)
  }

  lemma SplitArea(direction: Direction, at: real, first: real, rest: real, crossAt: real, cross: real)
    ensures RectArea(Strip(direction, at, first + rest, crossAt, cross))
         == RectArea(Strip(direction, at, first, crossAt, cross)) + RectArea(Strip(direction, at + first, rest, crossAt, cross))
  {
  }

  /** Two pictures on either side of a cut make one picture of the whole strip. */
  lemma TilesJoin(direction: Direction, a: seq<Pane>, b: seq<Pane>, at: real, first: real, rest: real, crossAt: real, cross: real)
    requires first > 0.0 && rest >= 0.0 && cross > 0.0
    requires Tiles(a, Strip(direction, at, first, crossAt, cross))
    requires Tiles(b, Strip(direction, at + first, rest, crossAt, cross))
    ensures Tiles(a + b, Strip(direction, at, first + rest, crossAt, cross))
  {
    AreaConcat(a, b);
    SplitArea(direction, at, first, rest, crossAt, cross);
    WithinJoin(direction, a, b, at, first, rest, crossAt, cross);
  }

  lemma WithinJoin(direction: Direction, a: seq<Pane>, b: seq<Pane>, at: real, first: real, rest: real, crossAt: real, cross: real)
    requires first > 0.0 && rest >= 0.0
    requires AllWithin(a, Strip(direction, at, first, crossAt, cross)) && AllApart(a)
    requires AllWithin(b, Strip(direction, at + first, rest, crossAt, cross)) && AllApart(b)
    ensures AllWithin(a + b, Strip(direction, at, first + rest, crossAt, cross)) && AllApart(a + b)
  {
    forall i | 0 <= i < |a + b|
      ensures Within((a + b)[i].rect, Strip(direction, at, first + rest, crossAt, cross))
    {
      if i < |a| {
        assert Within(a[i].rect, Strip(direction, at, first, crossAt, cross));
      } else {
        assert Within(b[i - |a|].rect, Strip(direction, at + first, rest, crossAt, cross));
      }
    }
    forall i, j | 0 <= i < j < |a + b|
      ensures Apart((a + b)[i].rect, (a + b)[j].rect)
    {
      if j < |a| {
        assert Apart(a[i].rect, a[j].rect);
      } else if |a| <= i {
        assert Apart(b[i - |a|].rect, b[j - |a|].rect);
      } else {
        assert Within(a[i].rect, Strip(direction, at, first, crossAt, cross));
        assert Within(b[j - |a|].rect, Strip(direction, at + first, rest, crossAt, cross));
      }
    }
  }

  lemma PositiveScaled(weights: seq<real>, unit: real)
    requires Positive(weights) && unit > 0.0
    ensures Positive(Scaled(weights, unit))
  {
    forall i | 0 <= i < |weights|
      ensures Scaled(weights, unit)[i] > 0.0
    {
      assert Length(weights[i], unit) > 0.0;
    }
  }

  lemma PanesAreRow(split: Node, r: Rect)
    requires split.Split? && split.children != []
    ensures Panes(split, r) == Row(split.direction, split.children, Extents(split, r), Start(r, split.direction),
                                   CrossStart(r, split.direction), Cross(r, split.direction))
  {
    hide Extents, Row;
  }

  lemma LeafTiles(leaf: Node, r: Rect)
    requires leaf.Leaf? && r.w > 0.0 && r.h > 0.0
    ensures Tiles(Panes(leaf, r), r)
  {
    assert Panes(leaf, r)[1..] == [];
    assert Area(Panes(leaf, r)) == RectArea(r) + 0.0;
  }

  lemma NoEmptyParts(split: Node)
    requires split.Split? && NoEmptySplit(split)
    ensures split.children != [] && forall c <- split.children :: NoEmptySplit(c)
  {
  }

  /** The children's lengths are positive and fill the split's own. */
  lemma ExtentsFill(split: Node, r: Rect)
    requires split.Split? && split.children != [] && r.w > 0.0 && r.h > 0.0
    ensures Positive(Extents(split, r)) && Sum(Extents(split, r)) == Extent(r, split.direction)
  {
    hide Sum, Length, SplitWeights;
    var ws := SplitWeights(|split.children|, split.weights);
    SumPositive(ws);
    var unit := Extent(r, split.direction) / Sum(ws);
    PositiveScaled(ws, unit);
    SumScaled(ws, unit);
    assert Sum(ws) * unit == Extent(r, split.direction);
  }

  lemma CrossPositive(r: Rect, direction: Direction)
    requires r.w > 0.0 && r.h > 0.0
    ensures Cross(r, direction) > 0.0
  {
  }

  lemma StripWhole(r: Rect, direction: Direction)
    ensures Strip(direction, Start(r, direction), Extent(r, direction), CrossStart(r, direction), Cross(r, direction)) == r
  {
  }

  /** The panes of any tree without empty splits tile the frame they are drawn in. */
  lemma {:induction false} PanesTile(node: Node, r: Rect)
    requires NoEmptySplit(node) && r.w > 0.0 && r.h > 0.0
    ensures Tiles(Panes(node, r), r)
    decreases node, 0
  {
    hide *;
    match node
    case Leaf(_, _, _, _) => LeafTiles(node, r);
    case Split(_, direction, children, weights) =>
      NoEmptyParts(node);
      ExtentsFill(node, r);
      CrossPositive(r, direction);
      StripWhole(r, direction);
      RowTiles(direction, children, Extents(node, r), Start(r, direction), CrossStart(r, direction), Cross(r, direction));
      PanesAreRow(node, r);
  }

  lemma NothingTiles(lengths: seq<real>, strip: Rect, direction: Direction, at: real, crossAt: real, cross: real)
    requires lengths == [] && strip == Strip(direction, at, Sum(lengths), crossAt, cross)
    ensures Tiles([], strip)
  {
    assert Area([]) == 0.0;
  }

  lemma StripSides(direction: Direction, at: real, extent: real, crossAt: real, cross: real)
    requires cross > 0.0
    ensures var s := Strip(direction, at, extent, crossAt, cross); extent > 0.0 ==> s.w > 0.0 && s.h > 0.0
  {
  }

  lemma PositiveParts(lengths: seq<real>)
    requires Positive(lengths) && lengths != []
    ensures lengths[0] > 0.0 && Positive(lengths[1..]) && Sum(lengths[1..]) >= 0.0
  {
    SumPositive(lengths[1..]);
  }

  lemma {:induction false} RowTiles(direction: Direction, nodes: seq<Node>, lengths: seq<real>,
                                    at: real, crossAt: real, cross: real)
    requires |lengths| == |nodes| && Positive(lengths) && cross > 0.0
    requires forall c <- nodes :: NoEmptySplit(c)
    ensures Tiles(Row(direction, nodes, lengths, at, crossAt, cross), Strip(direction, at, Sum(lengths), crossAt, cross))
    decreases nodes, 0
  {
    hide *;
    if nodes == [] {
      RowNothing(direction, at, crossAt, cross);
      NothingTiles(lengths, Strip(direction, at, Sum(lengths), crossAt, cross), direction, at, crossAt, cross);
    } else {
      StripSides(direction, at, lengths[0], crossAt, cross);
      PositiveParts(lengths);
      assert nodes[0] in nodes;
      PanesTile(nodes[0], Strip(direction, at, lengths[0], crossAt, cross));
      RowTiles(direction, nodes[1..], lengths[1..], at + lengths[0], crossAt, cross);
      TilesJoin(direction, Panes(nodes[0], Strip(direction, at, lengths[0], crossAt, cross)),
                Row(direction, nodes[1..], lengths[1..], at + lengths[0], crossAt, cross),
                at, lengths[0], Sum(lengths[1..]), crossAt, cross);
      RowUncons(direction, nodes, lengths, at, crossAt, cross);
      SumUncons(lengths);
    }
  }
}
