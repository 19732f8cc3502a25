/** What happens to a row when sanitising drops some of its children: the others take the leading weights. */
module PaneDrops {
  import opened Strings
  import opened PaneTree
  import opened PaneNormal
  import opened PaneGeometry

  /** The values of the children that sanitising keeps. */
  function OfSurvivors(children: seq<Node>, values: seq<real>, valid: set<string>): (r: seq<real>)
    requires |values| == |children|
    ensures |r| == |SanitizeAll(children, valid)|
  {
    if children == [] then []
    else (if Sanitize(children[0], valid).Some? then [values[0]] else []) + OfSurvivors(children[1..], values[1..], valid)
  }

  predicate Proportional(a: seq<real>, b: seq<real>) {
    |a| == |b| && forall i, j :: 0 <= i < |a| && 0 <= j < |a| ==> a[i] * b[j] == a[j] * b[i]
  }

  lemma CrossScaled(x: real, y: real, c: real, d: real)
    ensures Length(x, c) * Length(y, d) == (x * y) * (c * d)
  {
  }

  lemma CancelFactor(p: real, q: real, f: real)
    requires f != 0.0
    ensures p * f == q * f <==> p == q
  {
    if p * f == q * f {
      assert (p - q) * f == 0.0;
    }
  }

  lemma NonZeroProduct(c: real, d: real)
    requires c != 0.0 && d != 0.0
    ensures c * d != 0.0
  {
  }

  /** Drawing two lists of weights at their own scales does not change whether they are proportional. */
  lemma ScaledProportional(a: seq<real>, b: seq<real>, c: real, d: real)
    requires |a| == |b| && c != 0.0 && d != 0.0
    ensures Proportional(Scaled(a, c), Scaled(b, d)) <==> Proportional(a, b)
  {
    NonZeroProduct(c, d);
    forall i, j | 0 <= i < |a| && 0 <= j < |a|
      ensures Scaled(a, c)[i] * Scaled(b, d)[j] == Scaled(a, c)[j] * Scaled(b, d)[i] <==> a[i] * b[j] == a[j] * b[i]
    {
      CrossScaled(a[i], b[j], c, d);
      CrossScaled(a[j], b[i], c, d);
      CancelFactor(a[i] * b[j], a[j] * b[i], c * d);
    }
    hide Length;
    var x, y := Scaled(a, c), Scaled(b, d);
    if Proportional(a, b) {
      forall i, j | 0 <= i < |x| && 0 <= j < |x|
        ensures x[i] * y[j] == x[j] * y[i]
      {
        assert a[i] * b[j] == a[j] * b[i];
      }
    }
    if Proportional(x, y) {
      forall i, j | 0 <= i < |a| && 0 <= j < |a|
        ensures a[i] * b[j] == a[j] * b[i]
      {
        assert x[i] * y[j] == x[j] * y[i];
      }
    }
  }

  lemma {:induction false} SurvivorsScaled(children: seq<Node>, values: seq<real>, valid: set<string>, unit: real)
    requires |values| == |children|
    ensures OfSurvivors(children, Scaled(values, unit), valid) == Scaled(OfSurvivors(children, values, valid), unit)
  {
    hide Sanitize, Length;
    if children != [] {
      SurvivorsScaled(children[1..], values[1..], valid, unit);
      assert Scaled(values, unit)[1..] == Scaled(values[1..], unit);
      assert Scaled([values[0]], unit) == [Length(values[0], unit)];
    }
  }

  lemma Unit(extent: real, total: real)
    requires extent > 0.0 && total > 0.0
    ensures extent / total != 0.0
  {
    assert (extent / total) * total == extent;
  }

  /** The lengths of the surviving children, before and after the others are dropped. */
  function OldLengths(split: Node, valid: set<string>, r: Rect): seq<real>
    requires split.Split? && split.children != []
  {
    OfSurvivors(split.children, Extents(split, r), valid)
  }

  function NewLengths(split: Node, valid: set<string>, r: Rect): seq<real>
    requires split.Split? && SanitizeAll(split.children, valid) != []
  {
    Extents(Split(split.id, split.direction, SanitizeAll(split.children, valid), split.weights), r)
  }

  /**
   * The survivors of a row fill it side by side with the leading weights of the row, so they keep
   * their proportions exactly when those are proportional to the weights they had.
   */
  lemma SurvivorsKeepProportions(split: Node, valid: set<string>, r: Rect)
    requires split.Split? && SanitizeAll(split.children, valid) != [] && Extent(r, split.direction) > 0.0
    ensures split.children != []
    ensures var kept, n := SanitizeAll(split.children, valid), Sanitize(split, valid);
            && n.Some?
            && Panes(n.value, r) == Row(split.direction, kept, NewLengths(split, valid, r), Start(r, split.direction),
                                        CrossStart(r, split.direction), Cross(r, split.direction))
            && (Proportional(NewLengths(split, valid, r), OldLengths(split, valid, r)) <==>
                Proportional(SplitWeights(|kept|, split.weights),
                             OfSurvivors(split.children, SplitWeights(|split.children|, split.weights), valid)))
  {
    var kept := SanitizeAll(split.children, valid);
    SanitizeAllNormal(split.children, valid);
    RebuildKeepsPanes(split.id, split.direction, kept, split.weights, valid, r);
    SurvivorLengths(split, valid, r);
    hide Panes, Row, Extents, SanitizeAll, OfSurvivors, Rebuild, Normal;
  }

  lemma SurvivorLengths(split: Node, valid: set<string>, r: Rect)
    requires split.Split? && split.children != [] && SanitizeAll(split.children, valid) != [] && Extent(r, split.direction) > 0.0
    ensures Proportional(NewLengths(split, valid, r), OldLengths(split, valid, r)) <==>
            Proportional(SplitWeights(|SanitizeAll(split.children, valid)|, split.weights),
                         OfSurvivors(split.children, SplitWeights(|split.children|, split.weights), valid))
  {
    hide SanitizeAll, OfSurvivors, Proportional, Length;
    var kept := SanitizeAll(split.children, valid);
    var all, lead := SplitWeights(|split.children|, split.weights), SplitWeights(|kept|, split.weights);
    var e := Extent(r, split.direction);
    SumPositive(all);
    SumPositive(lead);
    Unit(e, Sum(all));
    Unit(e, Sum(lead));
    SurvivorsScaled(split.children, all, valid, e / Sum(all));
    ScaledProportional(lead, OfSurvivors(split.children, all, valid), e / Sum(lead), e / Sum(all));
  }

  /** Weights 3, 1 and 2, the first child gone: the others are drawn 3 to 1 where they were 1 to 2. */
  lemma DroppedPaneSkews(gone: Node, a: Node, b: Node, valid: set<string>, r: Rect)
    requires Sanitize(gone, valid).None? && Sanitize(a, valid).Some? && Sanitize(b, valid).Some? && r.w > 0.0
    ensures var split := Split("row", Horizontal, [gone, a, b], [3.0, 1.0, 2.0]);
            && SanitizeAll(split.children, valid) == [Sanitize(a, valid).value, Sanitize(b, valid).value]
            && !Proportional(NewLengths(split, valid, r), OldLengths(split, valid, r))
  {
    hide Sanitize;
    var split := Split("row", Horizontal, [gone, a, b], [3.0, 1.0, 2.0]);
    assert split.children[1..] == [a, b] && [a, b][1..] == [b] && [b][1..] == [];
    assert SanitizeAll([b], valid) == [Sanitize(b, valid).value];
    var own := SplitWeights(3, split.weights);
    assert own == [3.0, 1.0, 2.0] && own[1..] == [1.0, 2.0] && [1.0, 2.0][1..] == [2.0];
    assert OfSurvivors([b], [2.0], valid) == [2.0];
    assert OfSurvivors([a, b], [1.0, 2.0], valid) == [1.0, 2.0];
    var lead, kept := SplitWeights(2, split.weights), OfSurvivors(split.children, own, valid);
    assert lead == [3.0, 1.0] && kept == [1.0, 2.0];
    assert lead[0] * kept[1] != lead[1] * kept[0];
    SurvivorLengths(split, valid, r);
  }

  /** A row of three panes, the first of which lists only a closed terminal. */
  lemma DropsSkewRows()
    ensures exists split: Node, valid: set<string>, r: Rect ::
              && split.Split? && split.children != [] && SanitizeAll(split.children, valid) != []
              && !Proportional(NewLengths(split, valid, r), OldLengths(split, valid, r))
  {
    hide *;
    var gone, a, b := Leaf("", ["x"], "", ""), Leaf("p", ["a"], "a", ""), Leaf("q", ["b"], "b", "");
    var valid := {"a", "b"};
    CleanSingles();
    OpenLeaf(a, "a", valid);
    OpenLeaf(b, "b", valid);
    GoneLeaf(gone, "x", valid);
    DroppedPaneSkews(gone, a, b, valid, Rect(0.0, 0.0, 1.0, 1.0));
  }

  lemma CleanSingles()
    ensures Clean("a") && Clean("b") && Clean("p") && Clean("q") && Clean("x")
  {
  }

  lemma OpenLeaf(leaf: Node, id: string, valid: set<string>)
    requires leaf.Leaf? && leaf.terminalIds == [id] && leaf.activeTerminalId == id && leaf.terminalId == ""
    requires Clean(id) && Clean(leaf.paneId) && id in valid
    ensures Sanitize(leaf, valid).Some?
  {
    NormalLeafFixed(leaf, valid);
  }

  lemma GoneLeaf(leaf: Node, id: string, valid: set<string>)
    requires leaf.Leaf? && leaf.terminalIds == [id] && leaf.terminalId == "" && Clean(id) && id !in valid
    ensures Sanitize(leaf, valid).None?
  {
    CleanOne(id);
    CleanBlank();
    hide CleanIds;
    assert [id][1..] == [];
  }

  lemma CleanOne(id: string)
    requires Clean(id)
    ensures CleanIds([id]) == [id]
  {
    assert AllClean([id]);
    TrimAllClean([id]);
    assert [id][..0] == [] && [id][1..] == [];
  }
}
