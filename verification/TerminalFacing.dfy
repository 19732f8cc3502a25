/** Whether the terminal a group has chosen is in sight in its pane, and the one action that hides it. */
module TerminalFacing {
  import opened Strings
  import opened Sequences
  import opened Wrappers
  import opened UniqueNames
  import opened PaneTree
  import opened PaneNormal
  import opened PaneGeometry
  import opened PaneSplit
  import opened PaneClose
  import opened PaneTabs
  import opened PaneUpdate
  import opened PaneEffects
  import opened PaneFacing
  import opened TerminalGroups
  import opened TerminalGroupsStable
  import opened TerminalState
  import opened TerminalActions
  import opened TerminalRuns
  import opened TerminalClosing
  import opened TerminalEffects
  import opened TerminalCloseEffects
  import opened TerminalInvariant

  /** The pane of the terminal the group has chosen shows it. */
  predicate InSight(g: Group) {
    Facing(g.layout, g.activeTerminalId)
  }

  predicate AllInSight(s: State) {
    forall i :: 0 <= i < |s.groups| ==> InSight(s.groups[i])
  }

  /**
   * Closing the terminal leaves the group's next one out of sight: with a single pane, when tabs stay on
   * its left and it was not the only one beside them; with several, when the next one is in another pane,
   * behind the tab shown there.
   */
  predicate Covers(g: Group, before: seq<string>, id: string, after: seq<string>)
    requires before + after != []
  {
    && g.activeTerminalId == id
    && if g.layout.Leaf? then before != [] && |before + after| > 1
       else exists i :: 0 <= i < |Leafs(g.layout)| && Behind(Leafs(g.layout)[i], id, Neighbour(before, after))
  }

  lemma PictureSame(a: Node, b: Node)
    requires DrawnAlike(a, b)
    ensures Leafs(a) == Leafs(b)
  {
    var frame := Rect(0.0, 0.0, 1.0, 1.0);
    assert Panes(a, frame) == Panes(b, frame);
    SamePicture(a, b, frame);
  }

  lemma GroupLists(g: Group, valid: set<string>)
    requires GroupOk(g, valid)
    ensures Tidy(g.layout, valid) && Listing(Leafs(g.layout)) == Shown(g)
  {
    NormalIsTidy(g.layout, valid);
    ListsTerminals(g.layout, valid);
  }

  lemma ClosedPanes(g: Group, id: string, after: Node)
    requires RemoveNode(g.layout, id).node.Some? && DrawnAlike(RemoveNode(g.layout, id).node.value, after)
    ensures Leafs(after) == KeptLeafs(Leafs(g.layout), id)
  {
    hide RemoveNode, Leafs, KeptLeafs, DrawnAlike;
    PictureSame(RemoveNode(g.layout, id).node.value, after);
    ClosedLeafs(g.layout, id);
  }

  lemma OnePane(leaf: Node)
    requires leaf.Leaf?
    ensures Leafs(leaf) == [leaf] && Listing([leaf]) == leaf.terminalIds
  {
    assert [leaf][1..] == [];
    assert Listing([leaf]) == leaf.terminalIds + Listing([]);
  }

  /** In a group that keeps terminals, the next one is in sight exactly unless the closed one covered it. */
  lemma ClosedInSight(g: Group, before: seq<string>, id: string, after: seq<string>, left: Node, valid: set<string>)
    requires GroupOk(g, valid) && NoDup(Shown(g)) && Shown(g) == before + [id] + after && before + after != [] && InSight(g)
    requires Leafs(left) == KeptLeafs(Leafs(g.layout), id)
    ensures Facing(left, NextInGroup(g, before, id, after)) <==> !Covers(g, before, id, after)
  {
    GroupLists(g, valid);
    OnePaneOr(g.layout);
    hide Leafs, KeptLeafs, Listing, Shown, NoDup, Behind, GroupOk, AllFace, Tidy;
    FacingIs(left, NextInGroup(g, before, id, after));
    FacingIs(g.layout, g.activeTerminalId);
    if g.activeTerminalId != id {
      OthersFace(Leafs(g.layout), id, g.activeTerminalId);
    } else if g.layout.Split? {
      NeighbourFaces(Leafs(g.layout), before, id, after);
    } else {
      MiddleShown(g.layout, before, id, after);
      FirstTabFaces(g.layout, before, id, after);
    }
  }

  lemma FacingIs(node: Node, id: string)
    ensures Facing(node, id) <==> AllFace(Leafs(node), id)
  {
  }

  lemma OnePaneOr(node: Node)
    ensures node.Leaf? ==> Leafs(node) == [node] && Listing([node]) == node.terminalIds
  {
    if node.Leaf? {
      OnePane(node);
    }
  }

  lemma MiddleShown(leaf: Node, before: seq<string>, id: string, after: seq<string>)
    requires leaf.Leaf? && leaf.terminalIds == before + [id] + after && AllFace([leaf], id)
    ensures leaf.activeTerminalId == id
  {
    assert [leaf][0] == leaf && leaf.terminalIds[|before|] == id;
  }

  // ----- the state after a close -----

  /** The terminal is closed in a group that shows others, and covers the next one. */
  predicate Hides(s: State, id: string) {
    var e := FirstShowing(s.groups, id);
    && e < |s.groups|
    && var ids := Shown(s.groups[e]);
       var i := IndexOf(ids, id);
       i < |ids| && |ids| > 1 && Covers(s.groups[e], ids[..i], id, ids[i + 1..])
  }

  lemma HidesIs(s: State, e: nat, before: seq<string>, id: string, after: seq<string>)
    requires RunInv(s) && e < |s.groups| && Shown(s.groups[e]) == before + [id] + after
    ensures Hides(s, id) <==> before + after != [] && Covers(s.groups[e], before, id, after)
  {
    hide RunInv, Covers, Shown;
    var ids := Shown(s.groups[e]);
    assert ids[|before|] == id && ids[..|before|] == before && ids[|before| + 1..] == after;
    OneShows(s, e, id);
    GroupAt(s, e);
    MiddleApart(before, id, after);
    IndexOfIs(ids, |before|);
  }

  lemma CloseInGroupSight(s: State, e: nat, before: seq<string>, id: string, after: seq<string>)
    requires RunInv(s) && e < |s.groups| && Shown(s.groups[e]) == before + [id] + after && before + after != [] && InSight(s.groups[e])
    ensures var r := Close(s, id);
            && |r.groups| == |s.groups| && (forall i :: 0 <= i < |s.groups| && i != e ==> r.groups[i] == s.groups[i])
            && r.groups[e].id == s.groups[e].id
            && (InSight(r.groups[e]) <==> !Covers(s.groups[e], before, id, after))
  {
    hide *;
    CloseInGroupShows(s, e, before, id, after);
    var g, r := s.groups[e], Close(s, id);
    var next := NextInGroup(g, before, id, after);
    StateWithoutIs(s, id, if s.activeTerminalId == id then next else s.activeTerminalId,
                   s.groups[e := Group(g.id, next, r.groups[e].layout)], s.activeGroupId);
    GroupAt(s, e);
    ClosedPanes(g, id, r.groups[e].layout);
    ClosedInSight(g, before, id, after, r.groups[e].layout, ToSet(s.terminalIds));
    InSightIs(r.groups[e]);
  }

  lemma InSightIs(g: Group)
    ensures InSight(g) <==> Facing(g.layout, g.activeTerminalId)
  {
  }

  lemma DrawnTurnFaces(before: Node, after: Node, id: string)
    requires DrawnTurn(before, after, id)
    ensures Facing(after, id)
  {
    hide Facing, Panes, Edited;
    var frame := Rect(0.0, 0.0, 1.0, 1.0);
    assert Edited(Panes(before, frame), Panes(after, frame), id, (b: Node, a: Node) => TurnedTo(b, a, id));
    TurnFaces(before, after, id, frame);
  }

  lemma TurnedInSight(before: Group, after: Group, id: string)
    requires Turned(before, after, id) && InSight(before)
    ensures InSight(after)
  {
    hide Facing, DrawnTurn;
    if before.activeTerminalId != id {
      DrawnTurnFaces(before.layout, after.layout, id);
    }
  }

  /** With its last terminal the group goes, and every other group is in sight as before. */
  lemma CloseAloneSight(s: State, e: nat, id: string)
    requires RunInv(s) && e < |s.groups| && Shown(s.groups[e]) == [id] && Without(s.terminalIds, id) != []
    requires forall i :: 0 <= i < |s.groups| && i != e ==> InSight(s.groups[i])
    ensures AllInSight(Close(s, id))
  {
    hide *;
    assert id in [id];
    OpenWhere(s, e, id);
    var k :| 0 <= k < |s.terminalIds| && s.terminalIds[k] == id;
    var x, y := s.terminalIds[..k], s.terminalIds[k + 1..];
    assert s.terminalIds == x + [id] + y;
    NoDupIds(s);
    MiddleApart(x, id, y);
    WithoutMiddle(x, id, y);
    CloseAloneShows(s, e, x, id, y);
    var r, others := Close(s, id), Others(s.groups, e);
    OthersIs(s.groups, e);
    assert forall i :: 0 <= i < |others| ==> InSight(others[i]);
    if s.activeTerminalId == id {
      var next := Neighbour(x, y);
      var a := FirstShowing(others, next);
      StateWithoutIs(s, id, next, others[a := r.groups[a]], others[a].id);
      TurnedInSight(others[a], r.groups[a], next);
    } else {
      StateWithoutIs(s, id, s.activeTerminalId, others, s.activeGroupId);
    }
    AllInSightIs(r);
  }

  lemma AllInSightIs(s: State)
    ensures AllInSight(s) <==> forall i :: 0 <= i < |s.groups| ==> InSight(s.groups[i])
  {
    hide InSight;
  }

  lemma SingleInSight(groupId: string, id: string)
    ensures InSight(NewGroup(groupId, id)) && InSight(Group(groupId, id, SinglePane(id)))
  {
    OnePane(NewLeaf(id));
  }

  lemma DefaultInSight(s: State)
    requires s.groups == DefaultState().groups
    ensures AllInSight(s)
  {
    hide InSight;
    SingleInSight(FallbackGroupId(DEFAULT_TERMINAL_ID), DEFAULT_TERMINAL_ID);
  }

  lemma ResetInSight(s: State)
    requires RunInv(s)
    ensures AllInSight(ClosedLast(s))
  {
    hide RunInv, ClosedLast, AllInSight;
    RunHeight(s);
    ClosedLastKeeps(s);
    DefaultInSight(ClosedLast(s));
  }

  lemma IsOpen(s: State, id: string)
    requires RunInv(s)
    ensures Renormalize(s) == s
    ensures id in s.terminalIds <==> FirstShowing(s.groups, id) < |s.groups|
    ensures FirstShowing(s.groups, id) < |s.groups| ==> id in Shown(s.groups[FirstShowing(s.groups, id)])
  {
    hide RunInv, Shown;
    Parts(s);
    var e := FirstShowing(s.groups, id);
    if id in s.terminalIds {
      OpenIsShown(s, id);
    }
    if e < |s.groups| {
      OpenWhere(s, e, id);
    }
  }

  lemma AroundIt(ids: seq<string>, id: string) returns (before: seq<string>, after: seq<string>)
    requires id in ids
    ensures ids == before + [id] + after
  {
    var i :| 0 <= i < |ids| && ids[i] == id;
    before, after := ids[..i], ids[i + 1..];
  }

  lemma LastNotHidden(s: State, id: string)
    requires RunInv(s) && id in s.terminalIds && Without(s.terminalIds, id) == []
    ensures !Hides(s, id)
  {
    hide *;
    IsOpen(s, id);
    var e := FirstShowing(s.groups, id);
    var before, after := AroundIt(Shown(s.groups[e]), id);
    HidesIs(s, e, before, id, after);
    if before + after != [] {
      GroupAt(s, e);
      MiddleApart(before, id, after);
      assert (before + after)[0] in before + after;
      RemainsToo(s, e, id, (before + after)[0]);
    }
  }

  /** Closing a terminal keeps every group's choice in sight exactly unless it covers the next one. */
  lemma CloseSight(s: State, id: string)
    requires RunInv(s) && AllInSight(s)
    ensures AllInSight(Close(s, id)) <==> !Hides(s, id)
  {
    hide *;
    AllInSightIs(s);
    IsOpen(s, id);
    if id !in s.terminalIds {
      ClosedNothing(s, id);
      NotHere(s, id);
    } else if Without(s.terminalIds, id) == [] {
      CloseIs(s, id);
      ResetInSight(s);
      LastNotHidden(s, id);
    } else {
      var e := FirstShowing(s.groups, id);
      var before, after := AroundIt(Shown(s.groups[e]), id);
      HidesIs(s, e, before, id, after);
      if before + after == [] {
        assert Shown(s.groups[e]) == [id];
        CloseAloneSight(s, e, id);
      } else {
        CloseInGroupSight(s, e, before, id, after);
        AllInSightIs(Close(s, id));
      }
    }
  }

  lemma ClosedNothing(s: State, id: string)
    requires Renormalize(s) == s && id !in s.terminalIds
    ensures Close(s, id) == s
  {
    hide Renormalize;
  }

  lemma NotHere(s: State, id: string)
    requires FirstShowing(s.groups, id) == |s.groups|
    ensures !Hides(s, id)
  {
    hide Covers, Shown;
  }

  // ----- closing a group -----

  lemma CloseEachIs(s: State, ids: seq<string>)
    ensures CloseEach(s, ids) == if ids == [] then s else CloseEach(Close(s, ids[0]), ids[1..])
  {
    hide Close;
  }

  lemma StillShows(s: State, k: nat, id: string, left: seq<string>)
    requires RunInv(s) && k < |s.groups| && Shown(s.groups[k]) == [id] + left && left != []
    ensures var r := Close(s, id); RunInv(r) && k < |r.groups| && Shown(r.groups[k]) == left
  {
    hide *;
    assert [id] + left == [] + [id] + left;
    OpenWhere(s, k, id) by {
      assert id in [id] + left;
    }
    GroupAt(s, k);
    MiddleApart([], id, left);
    RemainsToo(s, k, id, left[0]) by {
      assert left[0] in left && left[0] in [id] + left;
    }
    CloseKeeps(s, id);
    CloseInGroupShows(s, k, [], id, left);
    var g, r := s.groups[k], Close(s, id);
    var next := NextInGroup(g, [], id, left);
    StateWithoutIs(s, id, if s.activeTerminalId == id then next else s.activeTerminalId,
                   s.groups[k := Group(g.id, next, r.groups[k].layout)], s.activeGroupId);
    ClosedGroup(g, [], id, left, ToSet(s.terminalIds));
    PictureSame(RemoveNode(g.layout, id).node.value, r.groups[k].layout);
    GroupAt(r, k);
    GroupLists(r.groups[k], ToSet(r.terminalIds));
    ListsTerminals(RemoveNode(g.layout, id).node.value, ToSet(s.terminalIds) - {id});
    assert [] + left == left;
  }

  /** Closing a group one terminal at a time ends with every other group in sight, whatever it hides on the way. */
  lemma {:induction false} CloseEachSight(s: State, k: nat, ids: seq<string>)
    requires RunInv(s) && k < |s.groups| && ids == Shown(s.groups[k])
    requires forall i :: 0 <= i < |s.groups| && i != k ==> InSight(s.groups[i])
    ensures AllInSight(CloseEach(s, ids))
    decreases |ids|
  {
    hide *;
    GroupAt(s, k);
    GroupShowsSome(s.groups[k], ToSet(s.terminalIds));
    var id, left := ids[0], ids[1..];
    assert ids == [id] + left;
    CloseEachIs(s, ids);
    CloseEachIs(Close(s, id), []);
    if left == [] {
      OpenWhere(s, k, id) by {
        assert id in ids;
      }
      if Without(s.terminalIds, id) == [] {
        Parts(s);
        CloseIs(s, id);
        ResetInSight(s);
      } else {
        CloseAloneSight(s, k, id);
      }
    } else {
      StillShows(s, k, id, left);
      var r := Close(s, id);
      CloseOthersSame(s, k, id, left);
      CloseEachSight(r, k, left);
    }
  }

  lemma CloseOthersSame(s: State, k: nat, id: string, left: seq<string>)
    requires RunInv(s) && k < |s.groups| && Shown(s.groups[k]) == [id] + left && left != []
    ensures var r := Close(s, id);
            |r.groups| == |s.groups| && forall i :: 0 <= i < |s.groups| && i != k ==> r.groups[i] == s.groups[i]
  {
    hide *;
    assert [id] + left == [] + [id] + left;
    CloseInGroupShows(s, k, [], id, left);
    var g, r := s.groups[k], Close(s, id);
    var next := NextInGroup(g, [], id, left);
    StateWithoutIs(s, id, if s.activeTerminalId == id then next else s.activeTerminalId,
                   s.groups[k := Group(g.id, next, r.groups[k].layout)], s.activeGroupId);
  }

  lemma CloseGroupSight(s: State, groupId: string)
    requires RunInv(s) && AllInSight(s)
    ensures AllInSight(CloseGroup(s, groupId))
  {
    hide RunInv, Renormalize, CloseEach, Shown, InSight;
    Parts(s);
    var k := GroupIndex(s.groups, groupId);
    if k < |s.groups| {
      CloseEachSight(s, k, Shown(s.groups[k]));
    }
  }

  // ----- opening, choosing, resizing -----

  lemma OpenAloneSight(s: State, id: string)
    requires RunInv(s) && AllInSight(s) && Fresh(s, id)
    ensures AllInSight(OpenAlone(s, id)) && AllInSight(OpenFullWidth(s, id))
  {
    hide *;
    OpenAloneShows(s, id);
    OpenFullWidthShows(s, id);
    var r := OpenAlone(s, id);
    var g := Group(r.activeGroupId, id, SinglePane(id));
    OpenedActive(s, r, id, s.groups + [g], r.activeGroupId);
    SingleInSight(r.activeGroupId, id);
    AllInSightIs(s);
    AllInSightIs(r);
    AllInSightIs(OpenFullWidth(s, id));
  }

  /** One group is redrawn with its choice in sight, and the others stay. */
  lemma OneRedrawn(s: State, r: State, e: nat, g: Group)
    requires AllInSight(s) && e < |s.groups| && r.groups == s.groups[e := g] && InSight(g)
    ensures AllInSight(r)
  {
    hide InSight;
  }

  lemma NewInGroup(s: State, e: nat, id: string)
    requires RunInv(s) && Fresh(s, id) && e < |s.groups|
    ensures Tidy(s.groups[e].layout, ToSet(s.terminalIds)) && id !in Terminals(s.groups[e].layout)
  {
    hide *;
    GroupAt(s, e);
    GroupLists(s.groups[e], ToSet(s.terminalIds));
    FreshIsClean(s, id);
    ShownTerminals(s.groups[e]);
    if id in Shown(s.groups[e]) {
      OpenWhere(s, e, id);
    }
  }

  lemma OpenBesideSight(s: State, id: string, position: Position)
    requires RunInv(s) && AllInSight(s) && Fresh(s, id)
    ensures AllInSight(OpenBeside(s, id, position))
  {
    hide *;
    OpenBesideShows(s, id, position);
    var r, a := OpenBeside(s, id, position), GroupIndex(s.groups, s.activeGroupId);
    if |Shown(s.groups[a])| < 6 {
      var g := Group(s.groups[a].id, id, r.groups[a].layout);
      OpenedActive(s, r, id, s.groups[a := g], s.activeGroupId);
      NewInGroup(s, a, id);
      DrawnSplitFaces(s.groups[a].layout, g.layout, s.activeTerminalId, id, position, ToSet(s.terminalIds));
      InSightIs(g);
      OneRedrawn(s, r, a, g);
    }
  }

  lemma DrawnSplitFaces(before: Node, after: Node, target: string, id: string, position: Position, valid: set<string>)
    requires DrawnSplit(before, after, target, id, position) && Tidy(before, valid) && id !in Terminals(before)
    ensures Facing(after, id)
  {
    hide Facing, Panes, SplitPane, Terminals, Tidy;
    var frame := Rect(0.0, 0.0, 1.0, 1.0);
    var q := Request(target, id, position, "split-" + id);
    assert Panes(after, frame) == SplitPane(Panes(before, frame), q);
    SplitFaces(before, after, q, valid, frame);
  }

  lemma OpenTabSight(s: State, target: string, id: string)
    requires RunInv(s) && AllInSight(s) && Fresh(s, id) && target in s.terminalIds
    ensures AllInSight(OpenTab(s, target, id))
  {
    hide *;
    OpenTabShows(s, target, id);
    var r, b := OpenTab(s, target, id), FirstShowing(s.groups, target);
    if |Shown(s.groups[b])| < 6 {
      var g := Group(s.groups[b].id, id, r.groups[b].layout);
      OpenedActive(s, r, id, s.groups[b := g], s.groups[b].id);
      NewInGroup(s, b, id);
      DrawnTabFaces(s.groups[b].layout, g.layout, target, id, ToSet(s.terminalIds));
      InSightIs(g);
      OneRedrawn(s, r, b, g);
    }
  }

  lemma DrawnTabFaces(before: Node, after: Node, target: string, id: string, valid: set<string>)
    requires DrawnTab(before, after, target, id) && Tidy(before, valid) && id !in Terminals(before)
    ensures Facing(after, id)
  {
    hide Facing, Panes, Edited, Terminals, Tidy;
    var frame := Rect(0.0, 0.0, 1.0, 1.0);
    assert Edited(Panes(before, frame), Panes(after, frame), target, (b: Node, a: Node) => TabAdded(b, a, id));
    TabFaces(before, after, target, id, valid, frame);
  }

  lemma ChooseSight(s: State, id: string)
    requires RunInv(s) && AllInSight(s)
    ensures AllInSight(Choose(s, id))
  {
    hide *;
    ChooseShows(s, id);
    if id in s.terminalIds {
      var r, i := Choose(s, id), FirstShowing(s.groups, id);
      var g := Group(s.groups[i].id, id, r.groups[i].layout);
      DrawnTurnFaces(s.groups[i].layout, g.layout, id);
      InSightIs(g);
      OneRedrawn(s, r, i, g);
    }
  }

  lemma {:induction false} ResizedLeafs(node: Node, splitId: string, weights: seq<real>)
    ensures Leafs(ResizeNode(node, splitId, weights).0) == Leafs(node)
    decreases node, 0
  {
    if node.Split? {
      AllResizedLeafs(node.children, splitId, weights);
    }
  }

  lemma {:induction false} AllResizedLeafs(nodes: seq<Node>, splitId: string, weights: seq<real>)
    ensures AllLeafs(ResizeAll(nodes, splitId, weights).0) == AllLeafs(nodes)
    decreases nodes, 0
  {
    if nodes != [] {
      ResizedLeafs(nodes[0], splitId, weights);
      AllResizedLeafs(nodes[1..], splitId, weights);
      hide ResizeNode, Leafs;
      var first, rest := ResizeNode(nodes[0], splitId, weights).0, ResizeAll(nodes[1..], splitId, weights).0;
      assert ([first] + rest)[1..] == rest;
    }
  }

  lemma ResizeSight(s: State, groupId: string, splitId: string, weights: seq<real>)
    requires RunInv(s) && AllInSight(s)
    ensures AllInSight(Resize(s, groupId, splitId, weights))
  {
    hide *;
    ResizeShows(s, groupId, splitId, weights);
    var r, i := Resize(s, groupId, splitId, weights), GroupIndex(s.groups, groupId);
    if i < |s.groups| {
      var g := s.groups[i].(layout := r.groups[i].layout);
      ResizedLeafs(s.groups[i].layout, splitId, weights);
      AllInSightIs(s);
      SameLeafsFace(s.groups[i], g);
      OneRedrawn(s, r, i, g);
    }
  }

  lemma SameLeafsFace(before: Group, after: Group)
    requires InSight(before) && Leafs(before.layout) == Leafs(after.layout) && after.activeTerminalId == before.activeTerminalId
    ensures InSight(after)
  {
    hide Leafs;
  }

  // ----- every run -----

  lemma SameGroupsSight(s: State, r: State)
    requires r.groups == s.groups
    ensures AllInSight(r) <==> AllInSight(s)
  {
    hide InSight;
  }

  lemma ReportSight(s: State, id: string, isRunning: bool, state: Option<Attention>)
    requires Renormalize(s) == s
    ensures Report(s, id, isRunning, state).groups == s.groups
  {
    hide Renormalize;
  }

  lemma TitleSight(s: State, id: string, title: string, kind: Option<CliKind>)
    requires Renormalize(s) == s
    ensures SetOverride(s, id, title).groups == SetKind(s, id, kind).groups == SetMetadata(s, id, kind, title).groups == s.groups
  {
    hide Renormalize, Trim, TakenTitles, UniqueTitle, Lookup, TitleBase;
  }

  lemma RecordsSight(s: State, a: Action)
    requires RunInv(s) && (a.AReport? || a.ASetOverride? || a.ASetKind? || a.ASetMetadata? || a.ALook?)
    ensures Step(s, a).groups == s.groups
  {
    hide *;
    Parts(s);
    StepOf(s, a);
    match a
    case AReport(id, isRunning, state) => ReportSight(s, id, isRunning, state);
    case ASetOverride(id, title) => TitleSight(s, id, title, None);
    case ASetKind(id, kind) => TitleSight(s, id, "", kind);
    case ASetMetadata(id, kind, text) => TitleSight(s, id, text, kind);
    case ALook(edit) => LookShows(s, edit);
    case _ =>
  }

  lemma StepOf(s: State, a: Action)
    ensures match a
            case AReport(id, isRunning, state) => Step(s, a) == Report(s, id, isRunning, state)
            case ASetOverride(id, title) => Step(s, a) == SetOverride(s, id, title)
            case ASetKind(id, kind) => Step(s, a) == SetKind(s, id, kind)
            case ASetMetadata(id, kind, text) => Step(s, a) == SetMetadata(s, id, kind, text)
            case ALook(edit) => Step(s, a) == Look(s, edit)
            case AOpenTab(target, id) => Step(s, a) == OpenTab(s, target, id)
            case AChoose(id) => Step(s, a) == Choose(s, id)
            case _ => true
  {
    hide Report, SetOverride, SetKind, SetMetadata, Look, OpenTab, Choose, OpenAlone, OpenBeside, OpenFullWidth, Resize, Close, CloseGroup;
  }

  /** Of all actions only closing can put a group's choice out of sight, exactly when the closed terminal covers the next. */
  lemma StepSight(s: State, a: Action)
    requires RunInv(s) && Allowed(s, a) && AllInSight(s)
    ensures AllInSight(Step(s, a)) <==> !(a.AClose? && Hides(s, a.id))
  {
    hide RunInv, AllInSight, Hides, Close, CloseGroup, OpenAlone, OpenBeside, OpenTab, OpenFullWidth, Choose, Resize,
         Report, SetOverride, SetKind, SetMetadata, Look;
    match a
    case AOpenAlone(id) => OpenAloneSight(s, id);
    case AOpenBeside(id, position) => OpenBesideSight(s, id, position);
    case AOpenTab(target, id) => OpenTabSight(s, target, id);
    case AOpenFullWidth(id) => OpenAloneSight(s, id);
    case AChoose(id) => ChooseSight(s, id);
    case AResize(groupId, splitId, weights) => ResizeSight(s, groupId, splitId, weights);
    case AClose(id) => CloseSight(s, id);
    case ACloseGroup(groupId) => CloseGroupSight(s, groupId);
    case _ =>
      RecordsSight(s, a);
      SameGroupsSight(s, Step(s, a));
  }

  /** Some action of the run closes a terminal that covers the next one. */
  predicate RunHides(actions: seq<Action>) {
    actions != [] &&
      var front, last := actions[..|actions| - 1], actions[|actions| - 1];
      RunHides(front) || (last.AClose? && Hides(Run(DefaultState(), front), last.id))
  }

  /** Throughout the run every group's choice is in sight. */
  predicate RunInSight(actions: seq<Action>) {
    AllInSight(Run(DefaultState(), actions)) && (actions != [] ==> RunInSight(actions[..|actions| - 1]))
  }

  lemma RunIs(actions: seq<Action>)
    requires actions != []
    ensures var front, last := actions[..|actions| - 1], actions[|actions| - 1];
            && Run(DefaultState(), actions) == Step(Run(DefaultState(), front), last)
            && (AllAllowed(DefaultState(), actions) ==> AllAllowed(DefaultState(), front) && Allowed(Run(DefaultState(), front), last))
  {
    hide Step, Allowed;
  }

  /** In every allowed run, all choices stay in sight all the time exactly when no close covers the next terminal. */
  lemma {:induction false} RunSight(actions: seq<Action>)
    requires AllAllowed(DefaultState(), actions)
    ensures RunInSight(actions) <==> !RunHides(actions)
  {
    hide Step, Allowed, Hides, AllInSight, Run, AllAllowed, RunInv;
    if actions == [] {
      EmptyRun();
    } else {
      var front, last := actions[..|actions| - 1], actions[|actions| - 1];
      RunIs(actions);
      RunSight(front);
      RunKeeps(front);
      if RunInSight(front) {
        InSightNow(front);
        StepSight(Run(DefaultState(), front), last);
      }
    }
  }

  lemma InSightNow(actions: seq<Action>)
    requires RunInSight(actions)
    ensures AllInSight(Run(DefaultState(), actions))
  {
  }

  lemma EmptyRun()
    ensures AllInSight(Run(DefaultState(), []))
  {
    DefaultInSight(DefaultState());
  }

  /** With every choice in sight, the active terminal is the tab that a pane of the active group shows. */
  lemma ActiveIsVisible(s: State)
    requires RunInv(s) && AllInSight(s)
    ensures exists i, k ::
              && 0 <= i < |s.groups| && s.groups[i].id == s.activeGroupId
              && 0 <= k < |Leafs(s.groups[i].layout)| && Leafs(s.groups[i].layout)[k].activeTerminalId == s.activeTerminalId
              && s.activeTerminalId in Leafs(s.groups[i].layout)[k].terminalIds
  {
    hide *;
    ActiveIndex(s);
    ActiveAgrees(s);
    var i := GroupIndex(s.groups, s.activeGroupId);
    GroupAt(s, i);
    GroupLists(s.groups[i], ToSet(s.terminalIds));
    AllInSightIs(s);
    InSightIs(s.groups[i]);
    FacingIs(s.groups[i].layout, s.activeTerminalId);
    var k := ListedIn(Leafs(s.groups[i].layout), s.activeTerminalId);
    AllFaceAt(Leafs(s.groups[i].layout), k, s.activeTerminalId);
  }

  lemma AllFaceAt(leafs: seq<Node>, k: nat, id: string)
    requires (forall i :: 0 <= i < |leafs| ==> leafs[i].Leaf?) && AllFace(leafs, id) && k < |leafs| && id in leafs[k].terminalIds
    ensures leafs[k].activeTerminalId == id
  {
  }

  lemma {:induction false} ListedIn(leafs: seq<Node>, id: string) returns (k: nat)
    requires (forall i :: 0 <= i < |leafs| ==> leafs[i].Leaf?) && id in Listing(leafs)
    ensures k < |leafs| && id in leafs[k].terminalIds
  {
    if id in leafs[0].terminalIds {
      k := 0;
    } else {
      k := ListedIn(leafs[1..], id);
      k := k + 1;
    }
  }

  // ----- the middle one of three tabs -----

  /** One group of one pane with these tabs, the chosen one in sight. */
  predicate Tabs(s: State, ids: seq<string>, chosen: string) {
    && |s.groups| == 1 && s.terminalIds == ids
    && s.groups[0].activeTerminalId == chosen
    && |Leafs(s.groups[0].layout)| == 1 && Leafs(s.groups[0].layout)[0].terminalIds == ids
  }

  lemma OneTabMore(before: Node, after: Node, target: string, id: string)
    requires DrawnTab(before, after, target, id) && |Leafs(before)| == 1 && target in Leafs(before)[0].terminalIds
    ensures |Leafs(after)| == 1 && Leafs(after)[0].terminalIds == Leafs(before)[0].terminalIds + [id]
  {
    hide Panes, Leafs;
    var frame := Rect(0.0, 0.0, 1.0, 1.0);
    PanesAreLeafs(before, frame);
    PanesAreLeafs(after, frame);
    assert Edited(Panes(before, frame), Panes(after, frame), target, (b: Node, a: Node) => TabAdded(b, a, id));
  }

  lemma OneTabTurned(before: Node, after: Node, id: string)
    requires DrawnTurn(before, after, id) && |Leafs(before)| == 1 && id in Leafs(before)[0].terminalIds
    ensures |Leafs(after)| == 1 && Leafs(after)[0].terminalIds == Leafs(before)[0].terminalIds
  {
    hide Panes, Leafs;
    var frame := Rect(0.0, 0.0, 1.0, 1.0);
    PanesAreLeafs(before, frame);
    PanesAreLeafs(after, frame);
    assert Edited(Panes(before, frame), Panes(after, frame), id, (b: Node, a: Node) => TurnedTo(b, a, id));
  }

  lemma TabsShow(s: State, ids: seq<string>, chosen: string)
    requires RunInv(s) && Tabs(s, ids, chosen)
    ensures Shown(s.groups[0]) == ids
  {
    hide RunInv, Leafs, Tidy, Shown;
    GroupAt(s, 0);
    GroupLists(s.groups[0], ToSet(s.terminalIds));
    ListingUncons(Leafs(s.groups[0].layout));
    assert ids + [] == ids;
  }

  lemma TabOpened(s: State, ids: seq<string>, chosen: string, target: string, id: string)
    requires RunInv(s) && Tabs(s, ids, chosen) && target in ids && Fresh(s, id) && |ids| < 6
    ensures Tabs(OpenTab(s, target, id), ids + [id], id)
  {
    hide RunInv, Leafs, Shown, OpenTab, TitledAs, DrawnTab;
    TabsShow(s, ids, chosen);
    OpenTabShows(s, target, id);
    OneTabMore(s.groups[0].layout, OpenTab(s, target, id).groups[0].layout, target, id);
  }

  lemma TabChosen(s: State, ids: seq<string>, chosen: string, id: string)
    requires RunInv(s) && Tabs(s, ids, chosen) && id in ids
    ensures Tabs(Choose(s, id), ids, id)
  {
    hide RunInv, Leafs, Shown, Choose, DrawnTurn;
    TabsShow(s, ids, chosen);
    ChooseShows(s, id);
    OneTabTurned(s.groups[0].layout, Choose(s, id).groups[0].layout, id);
  }

  lemma {:induction false} PaneAtLeast(node: Node, valid: set<string>)
    requires Tidy(node, valid)
    ensures Leafs(node) != []
    decreases node
  {
    ListsTerminals(node, valid);
    TidyTerminals(node, valid);
  }

  lemma OneIsLeaf(node: Node, valid: set<string>)
    requires Normal(node, valid) && |Leafs(node)| == 1
    ensures node.Leaf?
  {
    NormalIsTidy(node, valid);
    if node.Split? {
      PaneAtLeast(node.children[0], valid);
      PaneAtLeast(node.children[1], valid);
      assert AllLeafs(node.children) == Leafs(node.children[0]) + (Leafs(node.children[1]) + AllLeafs(node.children[1..][1..]));
    }
  }

  lemma MiddleCovers(s: State, x: string, id: string, y: string)
    requires RunInv(s) && Tabs(s, [x, id, y], id)
    ensures Hides(s, id)
  {
    hide RunInv, Leafs, Shown, Normal, Hides;
    TabsShow(s, [x, id, y], id);
    GroupAt(s, 0);
    GroupLayoutNormal(s, 0);
    OneIsLeaf(s.groups[0].layout, ToSet(s.terminalIds));
    assert [x, id, y] == [x] + [id] + [y];
    HidesIs(s, 0, [x], id, [y]);
  }

  /** A reachable state of such tabs, all in sight. */
  ghost predicate Stage(s: State, ids: seq<string>, chosen: string) {
    RunInv(s) && AllInSight(s) && Tabs(s, ids, chosen)
  }

  lemma NextTab(s: State, ids: seq<string>, chosen: string, target: string, id: string)
    requires Stage(s, ids, chosen) && target in ids && Clean(id) && id !in ids && |ids| < 6
    ensures var a := AOpenTab(target, id); Allowed(s, a) && Stage(Step(s, a), ids + [id], id)
  {
    hide RunInv, AllInSight, Tabs, Clean, Step, Hides;
    var a := AOpenTab(target, id);
    FreshWhen(s, ids, chosen, id);
    TabsOpen(s, ids, chosen);
    StepOf(s, a);
    TabOpened(s, ids, chosen, target, id);
    StepKeeps(s, a);
    StepSight(s, a);
  }

  lemma TabsOpen(s: State, ids: seq<string>, chosen: string)
    requires Tabs(s, ids, chosen)
    ensures s.terminalIds == ids
  {
  }

  lemma NextChoice(s: State, ids: seq<string>, chosen: string, id: string)
    requires Stage(s, ids, chosen) && id in ids
    ensures var a := AChoose(id); Allowed(s, a) && Stage(Step(s, a), ids, id)
  {
    hide RunInv, AllInSight, Tabs, Clean, Step, Hides;
    var a := AChoose(id);
    StepOf(s, a);
    TabChosen(s, ids, chosen, id);
    StepKeeps(s, a);
    StepSight(s, a);
  }

  lemma MiddleClosed(s: State, x: string, id: string, y: string)
    requires Stage(s, [x, id, y], id)
    ensures var a := AClose(id); Allowed(s, a) && !AllInSight(Step(s, a))
  {
    hide RunInv, AllInSight, Tabs, Clean, Step, Hides;
    MiddleCovers(s, x, id, y);
    StepSight(s, AClose(id));
  }

  lemma FirstStage()
    ensures Stage(DefaultState(), [DEFAULT_TERMINAL_ID], DEFAULT_TERMINAL_ID)
    ensures Clean("a") && Clean("b") && DEFAULT_TERMINAL_ID != "a" && DEFAULT_TERMINAL_ID != "b"
  {
    assert Clean("a") && Clean("b") && DEFAULT_TERMINAL_ID != "a" && DEFAULT_TERMINAL_ID != "b";
    hide RunInv, AllInSight, Tabs, Clean, DefaultState;
    DefaultTabs();
    DefaultInSight(DefaultState());
    DefaultKeeps(DefaultState().view);
  }

  /** Three tabs in one pane, the middle one chosen and closed: the first becomes active, and the last is in sight. */
  lemma MiddleTabHides()
    ensures var actions := [AOpenTab(DEFAULT_TERMINAL_ID, "a"), AOpenTab(DEFAULT_TERMINAL_ID, "b"), AChoose("a"), AClose("a")];
            AllAllowed(DefaultState(), actions) && !AllInSight(Run(DefaultState(), actions))
  {
    hide *;
    var id, s0 := DEFAULT_TERMINAL_ID, DefaultState();
    var first, second, third, fourth := AOpenTab(id, "a"), AOpenTab(id, "b"), AChoose("a"), AClose("a");
    var s1 := Step(s0, first);
    var s2 := Step(s1, second);
    var s3 := Step(s2, third);
    FirstStage();
    NextTab(s0, [id], id, id, "a");
    assert [id] + ["a"] == [id, "a"] && [id, "a"] + ["b"] == [id, "a", "b"];
    NextTab(s1, [id, "a"], "a", id, "b");
    NextChoice(s2, [id, "a", "b"], "b", "a");
    MiddleClosed(s3, id, "a", "b");
    RunNone(s0);
    RunOne(s0, [], first);
    RunOne(s0, [first], second);
    RunOne(s0, [first, second], third);
    RunOne(s0, [first, second, third], fourth);
    assert [] + [first] == [first] && [first] + [second] == [first, second] && [first, second] + [third] == [first, second, third];
    assert [first, second, third] + [fourth] == [first, second, third, fourth];
  }

  lemma DefaultTabs()
    ensures Tabs(DefaultState(), [DEFAULT_TERMINAL_ID], DEFAULT_TERMINAL_ID) && DefaultState().view.height > 0.0
    ensures DefaultState().(view := DefaultState().view) == DefaultState()
  {
    OnePane(NewLeaf(DEFAULT_TERMINAL_ID));
  }

  lemma FreshWhen(s: State, ids: seq<string>, chosen: string, id: string)
    requires Tabs(s, ids, chosen) && Clean(id) && id !in ids
    ensures Fresh(s, id)
  {
  }

  lemma RunNone(s: State)
    ensures Run(s, []) == s && AllAllowed(s, [])
  {
  }

  lemma RunOne(s: State, front: seq<Action>, last: Action)
    ensures Run(s, front + [last]) == Step(Run(s, front), last)
    ensures AllAllowed(s, front) && Allowed(Run(s, front), last) ==> AllAllowed(s, front + [last])
  {
    hide Step, Allowed;
    assert (front + [last])[..|front + [last]| - 1] == front;
  }
}
