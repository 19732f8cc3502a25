/** What closing a terminal does to the whole state: its pane, its group, and which terminal is active next. */
module TerminalCloseEffects {
  import opened Strings
  import opened Sequences
  import opened Wrappers
  import opened PaneTree
  import opened PaneNormal
  import opened PaneGeometry
  import opened PaneSplit
  import opened PaneClose
  import opened PaneTabs
  import opened PaneUpdate
  import opened PaneEffects
  import opened TerminalGroups
  import opened TerminalGroupsStable
  import opened TerminalState
  import opened TerminalActions
  import opened TerminalRuns
  import opened TerminalClosing
  import opened TerminalEffects

  // ----- the one group that shows it -----

  lemma UntouchedGroup(g: Group, id: string, valid: set<string>)
    requires GroupOk(g, valid) && id !in Shown(g)
    ensures RemoveFromGroup(g, id) == Some(g)
  {
    NormalIsTidy(g.layout, valid);
    RemoveDropsTerminal(g.layout, id, valid);
    hide Terminals, RemoveNode, Adjacent;
  }

  lemma {:induction false} UntouchedGroups(gs: seq<Group>, id: string, valid: set<string>)
    requires AllOk(gs, valid) && forall i :: 0 <= i < |gs| ==> id !in Shown(gs[i])
    ensures CloseIn(gs, id) == gs
  {
    hide GroupOk, Shown, RemoveFromGroup;
    if gs != [] {
      UntouchedGroup(gs[0], id, valid);
      UntouchedGroups(gs[1..], id, valid);
      assert gs == [gs[0]] + gs[1..];
    }
  }

  lemma OkUncons(gs: seq<Group>, valid: set<string>)
    requires gs != [] && AllOk(gs, valid)
    ensures GroupOk(gs[0], valid) && AllOk(gs[1..], valid)
  {
    hide GroupOk;
  }

  lemma CloseAtIs(gs: seq<Group>, e: nat, id: string)
    requires e < |gs|
    ensures var r := RemoveFromGroup(gs[e], id);
            CloseAt(gs, e, id) == gs[..e] + (if r.Some? then [r.value] else []) + gs[e + 1..]
  {
    hide RemoveFromGroup;
  }

  /** Closing touches the one group that shows the terminal. */
  lemma {:induction false} CloseInAt(gs: seq<Group>, e: nat, id: string, valid: set<string>)
    requires AllOk(gs, valid) && e < |gs| && forall i :: 0 <= i < |gs| && i != e ==> id !in Shown(gs[i])
    ensures CloseIn(gs, id) == CloseAt(gs, e, id)
  {
    hide *;
    var rest := gs[1..];
    CloseInUncons(gs, id);
    CloseAtIs(gs, e, id);
    OkUncons(gs, valid);
    assert forall i :: 0 <= i < |rest| ==> rest[i] == gs[i + 1];
    if e == 0 {
      UntouchedGroups(rest, id, valid);
      assert gs[..0] == [];
    } else {
      UntouchedGroup(gs[0], id, valid);
      CloseInAt(rest, e - 1, id, valid);
      CloseAtIs(rest, e - 1, id);
      assert gs[..e] == [gs[0]] + rest[..e - 1] && gs[e + 1..] == rest[e..];
    }
  }

  /** The group's next active terminal: a split's neighbour of the closed one, a single pane's first tab. */
  function NextInGroup(g: Group, before: seq<string>, id: string, after: seq<string>): string
    requires before + after != []
  {
    if g.activeTerminalId != id then g.activeTerminalId
    else if g.layout.Split? then Neighbour(before, after) else (before + after)[0]
  }

  lemma WithoutMiddle(before: seq<string>, id: string, after: seq<string>)
    requires id !in before && id !in after
    ensures Without(before + [id] + after, id) == before + after
    ensures IndexOf(before + [id] + after, id) == |before|
  {
    var s := before + [id] + after;
    assert s[|before|] == id && s[..|before|] == before;
    IndexOfIs(s, |before|);
    WithoutConcat(before + [id], after, id);
    WithoutConcat(before, [id], id);
    assert [id][1..] == [];
    assert Without([id], id) == [];
    assert before + [] == before;
  }

  /** Closing a terminal in its group: the others stay in order, in the tree without its tab. */
  lemma ClosedGroup(g: Group, before: seq<string>, id: string, after: seq<string>, valid: set<string>)
    requires GroupOk(g, valid) && NoDup(Shown(g)) && Shown(g) == before + [id] + after
    ensures var r, node := RemoveFromGroup(g, id), RemoveNode(g.layout, id).node;
            && (before + after == [] ==> r == None)
            && (before + after != [] ==>
                  && node.Some? && Tidy(node.value, valid - {id}) && Terminals(node.value) == before + after
                  && r == Some(Group(g.id, NextInGroup(g, before, id, after), node.value)))
  {
    hide PaneIds, CleanIds, RemoveNode, Normal;
    MiddleApart(before, id, after);
    WithoutMiddle(before, id, after);
    NormalIsTidy(g.layout, valid);
    TidyTerminals(g.layout, valid);
    RemoveDropsTerminal(g.layout, id, valid);
    var node := RemoveNode(g.layout, id).node;
    if node.Some? {
      TidyTerminals(node.value, valid - {id});
    }
    hide Terminals, Tidy, Without;
    ActiveMember(g, before, id, after);
    AdjacentIs(g.layout, before, id, after);
  }

  lemma ActiveMember(g: Group, before: seq<string>, id: string, after: seq<string>)
    requires g.activeTerminalId in Shown(g) && Shown(g) == before + [id] + after && id !in before && id !in after
    ensures g.activeTerminalId in before + after <==> g.activeTerminalId != id
  {
  }

  /** The adjacent terminal of a split is the one that follows, or else the one before. */
  lemma AdjacentIs(node: Node, before: seq<string>, id: string, after: seq<string>)
    requires Terminals(node) == before + [id] + after && id !in before && id !in after
    ensures Adjacent(node, id) == if node.Leaf? || before + after == [] then None else Some(Neighbour(before, after))
  {
    hide Terminals;
    WithoutMiddle(before, id, after);
    var ids := Terminals(node);
    assert after != [] ==> ids[|before| + 1] == after[0];
    assert before != [] ==> ids[|before| - 1] == before[|before| - 1];
  }

  // ----- flattening what is left does not move it -----

  predicate ProperPanes(panes: seq<Pane>, valid: set<string>) {
    forall i :: 0 <= i < |panes| ==> panes[i].leaf.Leaf? && NormalLeaf(panes[i].leaf, valid)
  }

  lemma JoinProper(a: seq<Pane>, b: seq<Pane>, valid: set<string>)
    requires ProperPanes(a, valid) && ProperPanes(b, valid)
    ensures ProperPanes(a + b, valid)
  {
    hide NormalLeaf;
  }

  lemma LeafIsProper(leaf: Node, valid: set<string>, frame: Rect)
    requires leaf.Leaf? && Tidy(leaf, valid)
    ensures ProperPanes(Panes(leaf, frame), valid) && Whole(leaf, valid)
  {
    NormalLeafFixed(leaf, valid);
  }

  lemma TidyParts(split: Node, valid: set<string>)
    requires split.Split? && Tidy(split, valid)
    ensures split.children != [] && forall c <- split.children :: Tidy(c, valid)
    ensures (forall c <- split.children :: Whole(c, valid)) ==> Whole(split, valid)
  {
  }

  lemma NothingProper(valid: set<string>)
    ensures ProperPanes([], valid)
  {
  }

  lemma {:induction false} TidyIsProper(node: Node, valid: set<string>, frame: Rect)
    requires Tidy(node, valid)
    ensures ProperPanes(Panes(node, frame), valid) && Whole(node, valid)
    decreases node, 0
  {
    hide *;
    match node
    case Leaf(_, _, _, _) => LeafIsProper(node, valid, frame);
    case Split(_, direction, children, _) =>
      TidyParts(node, valid);
      PanesAreRow(node, frame);
      TidyRowIsProper(children, valid, direction, Extents(node, frame), Start(frame, direction), CrossStart(frame, direction), Cross(frame, direction));
  }

  lemma {:induction false} TidyRowIsProper(nodes: seq<Node>, valid: set<string>, direction: Direction,
                                           lengths: seq<real>, at: real, crossAt: real, cross: real)
    requires |lengths| == |nodes| && forall c <- nodes :: Tidy(c, valid)
    ensures ProperPanes(Row(direction, nodes, lengths, at, crossAt, cross), valid)
    ensures forall c <- nodes :: Whole(c, valid)
    decreases nodes, 0
  {
    hide *;
    if nodes == [] {
      RowNothing(direction, at, crossAt, cross);
      NothingProper(valid);
    } else {
      assert nodes[0] in nodes;
      RowUncons(direction, nodes, lengths, at, crossAt, cross);
      TidyIsProper(nodes[0], valid, Strip(direction, at, lengths[0], crossAt, cross));
      TidyRowIsProper(nodes[1..], valid, direction, lengths[1..], at + lengths[0], crossAt, cross);
      JoinProper(Panes(nodes[0], Strip(direction, at, lengths[0], crossAt, cross)),
                 Row(direction, nodes[1..], lengths[1..], at + lengths[0], crossAt, cross), valid);
      assert nodes == [nodes[0]] + nodes[1..];
    }
  }

  lemma CleanNothing(valid: set<string>)
    ensures CleanPanes([], valid) == []
  {
  }

  lemma CleanFirst(panes: seq<Pane>, valid: set<string>)
    requires panes != [] && ProperPanes(panes, valid)
    ensures ProperPanes(panes[1..], valid) && CleanPanes(panes, valid) == [panes[0]] + CleanPanes(panes[1..], valid)
  {
    NormalLeafFixed(panes[0].leaf, valid);
    hide NormalLeaf, SanitizeLeaf;
  }

  lemma {:induction false} ProperIsClean(panes: seq<Pane>, valid: set<string>)
    requires ProperPanes(panes, valid)
    ensures CleanPanes(panes, valid) == panes
  {
    hide *;
    if panes == [] {
      CleanNothing(valid);
    } else {
      CleanFirst(panes, valid);
      ProperIsClean(panes[1..], valid);
      assert panes == [panes[0]] + panes[1..];
    }
  }

  /** The same picture in every frame. */
  ghost predicate DrawnAlike(a: Node, b: Node) {
    forall frame: Rect :: Panes(a, frame) == Panes(b, frame)
  }

  lemma TidyDrawnAlike(node: Node, valid: set<string>)
    requires Tidy(node, valid)
    ensures Sanitize(node, valid).Some? && DrawnAlike(node, Sanitize(node, valid).value)
  {
    SanitizeTidy(node, valid);
    hide Panes, Sanitize, CleanPanes, ProperPanes, Tidy, Normal;
    forall frame: Rect
      ensures Panes(node, frame) == Panes(Sanitize(node, valid).value, frame)
    {
      TidyIsProper(node, valid, frame);
      SanitizeKeepsPanes(node, valid, frame);
      ProperIsClean(Panes(node, frame), valid);
    }
  }

  // ----- the state after a close -----

  lemma TextsShrink(texts: map<string, string>, ids: seq<string>, id: string)
    requires OpenTexts(texts, ids)
    ensures OpenTexts(texts - {id}, Without(ids, id))
  {
    hide Clean;
  }

  lemma KeysShrink(keys: set<string>, ids: seq<string>, id: string)
    requires Subset(keys, ids)
    ensures Subset(keys - {id}, Without(ids, id))
  {
  }

  lemma ClosedRecords(s: State, id: string)
    requires RecordsOk(s) && id in s.terminalIds && Without(s.terminalIds, id) != []
    ensures RecordsOk(Closed(s, id))
  {
    hide NextActive, CloseIn, FirstShowing, OpenTexts, Subset, RecordsOk;
    var c := Closed(s, id);
    RecordsParts(s);
    RecordsParts(c);
    TextsShrink(s.labels, s.terminalIds, id);
    TextsShrink(s.overrides, s.terminalIds, id);
    KeysShrink(s.cliKinds.Keys, s.terminalIds, id);
    KeysShrink(s.attention.Keys, s.terminalIds, id);
    KeysShrink(ToSet(s.running), s.terminalIds, id);
    assert c.cliKinds.Keys == s.cliKinds.Keys - {id} && c.attention.Keys == s.attention.Keys - {id};
    assert ToSet(c.running) == ToSet(s.running) - {id};
  }

  lemma CloseResult(s: State, id: string)
    requires RunInv(s) && id in s.terminalIds && Without(s.terminalIds, id) != []
    ensures var c := Closed(s, id); Close(s, id) == c.(groups := Resynced(c)) && Candidate(c)
  {
    hide *;
    InvariantIsCandidate(s);
    RunRecords(s);
    CloseIs(s, id);
    ClosedIsCandidate(s, id);
    ClosedRecords(s, id);
    CandidateIs(Closed(s, id));
  }

  /** The state without one terminal: gone from the list and from every record, with these groups and choices. */
  function StateWithout(s: State, id: string, active: string, groups: seq<Group>, groupId: string): State {
    ThreadState(s.view, Without(s.terminalIds, id), s.labels - {id}, s.overrides - {id}, s.cliKinds - {id},
                s.attention - {id}, Without(s.running, id), active, groups, groupId)
  }

  lemma SettledOther(g: Group, valid: set<string>, id: string)
    requires GroupOk(g, valid) && id !in Shown(g)
    ensures Settle(g, valid - {id}) == g
  {
    NormalIsTidy(g.layout, valid);
    TidyTerminals(g.layout, valid);
    NormalForOwn(g.layout, valid, valid - {id});
    SettledIsFixed(g, valid - {id});
  }

  /** A group that lost a tab is drawn as its tree without the tab. */
  lemma SettledClosed(g: Group, valid: set<string>)
    requires Tidy(g.layout, valid)
    ensures var r := Settle(g, valid); r == Group(g.id, g.activeTerminalId, r.layout) && DrawnAlike(g.layout, r.layout)
  {
    TidyDrawnAlike(g.layout, valid);
    hide DrawnAlike, Sanitize;
  }

  lemma SettleAllAt(gs: seq<Group>, e: nat, h: Group, valid: set<string>, id: string)
    requires AllOk(gs, valid) && e < |gs| && forall i :: 0 <= i < |gs| && i != e ==> id !in Shown(gs[i])
    ensures SettleAll(gs[e := h], valid - {id}) == gs[e := Settle(h, valid - {id})]
  {
    hide Settle, Shown, GroupOk;
    forall i | 0 <= i < |gs| && i != e
      ensures Settle(gs[i], valid - {id}) == gs[i]
    {
      SettledOther(gs[i], valid, id);
    }
  }

  lemma ShownSplit(g: Group, before: seq<string>, id: string, after: seq<string>)
    requires Shown(g) == before + [id] + after
    ensures id in Shown(g) && forall t <- before + after :: t in Shown(g)
    ensures g.activeTerminalId in Shown(g) && g.activeTerminalId != id ==> g.activeTerminalId in before + after
  {
    hide Shown;
  }

  lemma RemainsToo(s: State, e: nat, id: string, t: string)
    requires RunInv(s) && e < |s.groups| && t in Shown(s.groups[e]) && t != id
    ensures Without(s.terminalIds, id) != []
  {
    hide RunInv, Shown;
    ShownIsOpen(s, e);
    assert t in Without(s.terminalIds, id);
  }

  lemma OpenWhere(s: State, e: nat, id: string)
    requires RunInv(s) && e < |s.groups| && id in Shown(s.groups[e])
    ensures id in s.terminalIds
  {
    hide RunInv, Shown;
    ShownIsOpen(s, e);
  }

  lemma ValidWithout(ids: seq<string>, id: string)
    ensures ToSet(Without(ids, id)) == ToSet(ids) - {id}
  {
  }

  /** What the source hands to the normaliser when the group survives. */
  lemma ClosedInGroup(s: State, e: nat, before: seq<string>, id: string, after: seq<string>)
    requires RunInv(s) && e < |s.groups| && Shown(s.groups[e]) == before + [id] + after && before + after != []
    ensures id in s.terminalIds && Without(s.terminalIds, id) != []
    ensures var g := s.groups[e];
            var node := RemoveNode(g.layout, id).node;
            var next := NextInGroup(g, before, id, after);
            && node.Some? && Tidy(node.value, ToSet(s.terminalIds) - {id}) && Terminals(node.value) == before + after
            && Closed(s, id) == StateWithout(s, id, if s.activeTerminalId == id then next else s.activeTerminalId,
                                         s.groups[e := Group(g.id, next, node.value)], s.activeGroupId)
  {
    hide *;
    var g, valid := s.groups[e], ToSet(s.terminalIds);
    Parts(s);
    GroupAt(s, e);
    ShownSplit(g, before, id, after);
    OneShows(s, e, id);
    OpenWhere(s, e, id);
    MiddleApart(before, id, after);
    RemainsToo(s, e, id, (before + after)[0]) by {
      assert (before + after)[0] in before + after;
    }
    ClosedGroup(g, before, id, after, valid);
    CloseInAt(s.groups, e, id, valid);
    CloseAtIs(s.groups, e, id);
    var h := Group(g.id, NextInGroup(g, before, id, after), RemoveNode(g.layout, id).node.value);
    assert CloseIn(s.groups, id) == s.groups[e := h];
    ShownTerminals(h);
    ActiveShownBy(s, e, h, before, id, after);
    ClosedIs(s, e, h, id);
  }

  lemma NextIsLeft(g: Group, before: seq<string>, id: string, after: seq<string>, valid: set<string>)
    requires GroupOk(g, valid) && Shown(g) == before + [id] + after && before + after != []
    ensures NextInGroup(g, before, id, after) in before + after
  {
    hide Shown, Normal;
    ShownSplit(g, before, id, after);
    assert (before + after)[0] in before + after;
  }

  lemma ActiveShownBy(s: State, e: nat, h: Group, before: seq<string>, id: string, after: seq<string>)
    requires RunInv(s) && e < |s.groups| && Shown(s.groups[e]) == before + [id] + after && before + after != []
    requires h == Group(s.groups[e].id, NextInGroup(s.groups[e], before, id, after), h.layout) && Shown(h) == before + after
    ensures var hs := s.groups[e := h];
            && GroupIndex(hs, s.groups[e].id) == e
            && (s.activeTerminalId == id ==> s.groups[e].id == s.activeGroupId && FirstShowing(hs, h.activeTerminalId) == e)
            && (s.activeTerminalId != id ==>
                  FirstShowing(hs, s.activeTerminalId) < |hs| && hs[FirstShowing(hs, s.activeTerminalId)].id == s.activeGroupId)
  {
    hide *;
    var hs, a := s.groups[e := h], GroupIndex(s.groups, s.activeGroupId);
    Parts(s);
    ShownSplit(s.groups[e], before, id, after);
    OneShows(s, e, id);
    GroupIndexIs(hs, e);
    ActiveIndex(s);
    OneShows(s, a, s.activeTerminalId);
    NextIsLeft(s.groups[e], before, id, after, ToSet(s.terminalIds));
    if s.activeTerminalId == id {
      assert a == e;
      forall k | 0 <= k < e
        ensures h.activeTerminalId !in Shown(hs[k])
      {
        IdsDiffer(s.groups, e, k);
      }
      FirstShowingIs(hs, e, h.activeTerminalId);
    } else {
      if a == e {
        assert s.activeTerminalId in before + after;
      }
      FirstShowingIs(hs, a, s.activeTerminalId);
    }
  }

  lemma ClosedIs(s: State, e: nat, h: Group, id: string)
    requires id in s.terminalIds && Without(s.terminalIds, id) != [] && e < |s.groups| && FirstShowing(s.groups, id) == e
    requires CloseIn(s.groups, id) == s.groups[e := h]
    requires var hs := s.groups[e := h];
             && GroupIndex(hs, s.groups[e].id) == e
             && (s.activeTerminalId == id ==> s.groups[e].id == s.activeGroupId && FirstShowing(hs, h.activeTerminalId) == e)
             && (s.activeTerminalId != id ==>
                   FirstShowing(hs, s.activeTerminalId) < |hs| && hs[FirstShowing(hs, s.activeTerminalId)].id == s.activeGroupId)
    requires h.id == s.groups[e].id
    ensures Closed(s, id) == StateWithout(s, id, if s.activeTerminalId == id then h.activeTerminalId else s.activeTerminalId,
                                      s.groups[e := h], s.activeGroupId)
  {
    hide CloseIn, FirstShowing, Without, GroupIndex, Shown;
  }

  /**
   * A terminal closed in a group that shows others goes from its pane; no other group changes. The active
   * terminal, if it was this one, is the group's next.
   */
  lemma CloseInGroupShows(s: State, e: nat, before: seq<string>, id: string, after: seq<string>)
    requires RunInv(s) && e < |s.groups| && Shown(s.groups[e]) == before + [id] + after && before + after != []
    ensures var r, g := Close(s, id), s.groups[e];
            var next := NextInGroup(g, before, id, after);
            && e < |r.groups| && RemoveNode(g.layout, id).node.Some?
            && r == StateWithout(s, id, if s.activeTerminalId == id then next else s.activeTerminalId,
                             s.groups[e := Group(g.id, next, r.groups[e].layout)], s.activeGroupId)
            && DrawnAlike(RemoveNode(g.layout, id).node.value, r.groups[e].layout)
  {
    hide *;
    var g, valid := s.groups[e], ToSet(s.terminalIds);
    var next := NextInGroup(g, before, id, after);
    Parts(s);
    ClosedInGroup(s, e, before, id, after);
    var c, h := Closed(s, id), Group(g.id, next, RemoveNode(g.layout, id).node.value);
    var active := if s.activeTerminalId == id then next else s.activeTerminalId;
    CloseResult(s, id);
    ShownSplit(g, before, id, after);
    OneShows(s, e, id);
    ActiveAgrees(s);
    ValidWithout(s.terminalIds, id);
    StateWithoutIs(s, id, active, s.groups[e := h], s.activeGroupId);
    ResyncedIs(c);
    SettleAllAt(s.groups, e, h, valid, id);
    SettledClosed(h, valid - {id});
    var settled := s.groups[e := Settle(h, valid - {id})];
    NextIs(g, before, id, after);
    forall i | 0 <= i < |settled| && settled[i].id == s.activeGroupId
      ensures settled[i].activeTerminalId == active
    {
      assert s.groups[i].id == s.activeGroupId;
      assert i != e ==> s.activeTerminalId != id;
    }
    SyncedFixed(settled, c.activeGroupId, c.activeTerminalId);
    StateWithoutIs(s, id, active, settled, s.activeGroupId);
  }

  lemma NextIs(g: Group, before: seq<string>, id: string, after: seq<string>)
    requires before + after != []
    ensures g.activeTerminalId != id ==> NextInGroup(g, before, id, after) == g.activeTerminalId
  {
  }

  lemma StateWithoutIs(s: State, id: string, active: string, groups: seq<Group>, groupId: string)
    ensures var r := StateWithout(s, id, active, groups, groupId);
            && r.groups == groups && r.activeTerminalId == active && r.activeGroupId == groupId && r.terminalIds == Without(s.terminalIds, id)
            && forall gs: seq<Group> :: r.(groups := gs) == StateWithout(s, id, active, gs, groupId)
  {
  }

  // ----- the last terminal of its group -----

  /** The group as it was if it had chosen the terminal; else it chooses it, and its pane shows it. */
  ghost predicate Turned(before: Group, after: Group, id: string) {
    if before.activeTerminalId == id then after == before
    else after == Group(before.id, id, after.layout) && DrawnTurn(before.layout, after.layout, id)
  }

  lemma SyncTurns(g: Group, groupId: string, id: string, valid: set<string>)
    requires GroupOk(g, valid) && id in Shown(g) && g.id == groupId
    ensures Turned(g, SyncGroup(g, groupId, id), id)
  {
    hide Shown, ActivateInGroup, Normal, DrawnTurn;
    TurnGroupIs(g, id, valid);
  }

  lemma SyncLeaves(g: Group, groupId: string, id: string)
    requires g.id != groupId
    ensures SyncGroup(g, groupId, id) == g
  {
  }

  lemma SyncAt(gs: seq<Group>, a: nat, id: string, valid: set<string>)
    requires AllOk(gs, valid) && a < |gs| && id in Shown(gs[a]) && forall i :: 0 <= i < |gs| && i != a ==> gs[i].id != gs[a].id
    ensures var r := SyncGroups(gs, gs[a].id, id); |r| == |gs| && r == gs[a := r[a]] && Turned(gs[a], r[a], id)
  {
    hide SyncGroup, GroupOk, Shown, Turned;
    SyncTurns(gs[a], gs[a].id, id, valid);
    forall i | 0 <= i < |gs| && i != a
      ensures SyncGroup(gs[i], gs[a].id, id) == gs[i]
    {
      SyncLeaves(gs[i], gs[a].id, id);
    }
  }

  function Others(gs: seq<Group>, e: nat): seq<Group>
    requires e < |gs|
  {
    gs[..e] + gs[e + 1..]
  }

  lemma OthersAre(gs: seq<Group>, e: nat, valid: set<string>)
    requires e < |gs| && AllOk(gs, valid) && Separate(gs)
    ensures var others := Others(gs, e);
            && AllOk(others, valid) && Separate(others)
            && (forall i :: 0 <= i < |others| ==> others[i].id != gs[e].id && forall t <- Shown(gs[e]) :: t !in Shown(others[i]))
            && (forall k :: 0 <= k < |gs| && k != e ==> gs[k] in others)
            && GroupIndex(others, gs[e].id) == |others|
  {
    hide GroupOk, Shown, TerminalGroups.Apart;
    var others := Others(gs, e);
    forall i, j | 0 <= i < j < |others|
      ensures TerminalGroups.Apart(others[i], others[j])
    {
      assert others[i] == gs[if i < e then i else i + 1] && others[j] == gs[if j < e then j else j + 1];
    }
    forall i | 0 <= i < |others|
      ensures others[i].id != gs[e].id && forall t <- Shown(gs[e]) :: t !in Shown(others[i])
    {
      IdsDiffer(gs, e, if i < e then i else i + 1);
    }
    forall k | 0 <= k < |gs| && k != e
      ensures gs[k] in others
    {
      assert others[if k < e then k else k - 1] == gs[k];
    }
  }

  lemma SettledOthers(gs: seq<Group>, valid: set<string>, id: string)
    requires AllOk(gs, valid) && forall i :: 0 <= i < |gs| ==> id !in Shown(gs[i])
    ensures SettleAll(gs, valid - {id}) == gs
  {
    hide Settle, Shown, GroupOk;
    forall i | 0 <= i < |gs|
      ensures Settle(gs[i], valid - {id}) == gs[i]
    {
      SettledOther(gs[i], valid, id);
    }
  }

  lemma OneLess(x: seq<string>, id: string, y: seq<string>)
    requires NoDup(x + [id] + y) && Without(x + [id] + y, id) != []
    ensures var ids, rest := x + [id] + y, Without(x + [id] + y, id);
            x + y == rest && rest[Min(IndexOf(ids, id), |rest| - 1)] == Neighbour(x, y)
  {
    MiddleApart(x, id, y);
    WithoutMiddle(x, id, y);
    hide NoDup, Without;
  }

  lemma AloneIs(g: Group, id: string, valid: set<string>)
    requires GroupOk(g, valid) && NoDup(Shown(g)) && Shown(g) == [id]
    ensures RemoveFromGroup(g, id) == None
  {
    hide *;
    assert [] + [id] + [] == [id];
    ClosedGroup(g, [], id, [], valid);
  }

  lemma CloseInAlone(s: State, e: nat, id: string)
    requires RunInv(s) && e < |s.groups| && Shown(s.groups[e]) == [id]
    ensures CloseIn(s.groups, id) == Others(s.groups, e) && id in s.terminalIds && FirstShowing(s.groups, id) == e
  {
    hide *;
    Parts(s);
    GroupAt(s, e);
    assert id in [id];
    OneShows(s, e, id);
    OpenWhere(s, e, id);
    AloneIs(s.groups[e], id, ToSet(s.terminalIds));
    CloseInAt(s.groups, e, id, ToSet(s.terminalIds));
    CloseAtIs(s.groups, e, id);
    OthersIs(s.groups, e);
  }

  lemma OthersIs(gs: seq<Group>, e: nat)
    requires e < |gs|
    ensures Others(gs, e) == gs[..e] + gs[e + 1..] && gs[..e] + [] + gs[e + 1..] == Others(gs, e)
  {
  }

  lemma NextOutside(s: State, e: nat, x: seq<string>, id: string, y: seq<string>)
    requires RunInv(s) && e < |s.groups| && Shown(s.groups[e]) == [id] && s.terminalIds == x + [id] + y && s.activeTerminalId == id
    requires Without(s.terminalIds, id) != []
    ensures id in s.terminalIds && x + y != [] && NextActive(s, id) == Neighbour(x, y)
  {
    hide *;
    CloseInAlone(s, e, id);
    Parts(s);
    OthersAre(s.groups, e, ToSet(s.terminalIds));
    NoDupIds(s);
    OneLess(x, id, y);
    NextActiveIs(s, e, id);
  }

  lemma NoDupIds(s: State)
    requires RunInv(s)
    ensures NoDup(s.terminalIds)
  {
    hide NoDup;
    RunRecords(s);
  }

  lemma NextActiveIs(s: State, e: nat, id: string)
    requires id in s.terminalIds && Without(s.terminalIds, id) != [] && s.activeTerminalId == id
    requires e < |s.groups| && FirstShowing(s.groups, id) == e
    requires GroupIndex(CloseIn(s.groups, id), s.groups[e].id) == |CloseIn(s.groups, id)|
    ensures var rest := Without(s.terminalIds, id); NextActive(s, id) == rest[Min(IndexOf(s.terminalIds, id), |rest| - 1)]
  {
    hide CloseIn, FirstShowing, Without, GroupIndex, Shown;
  }

  lemma ClosedAloneIs(s: State, id: string, a: nat)
    requires id in s.terminalIds && Without(s.terminalIds, id) != []
    requires a == FirstShowing(CloseIn(s.groups, id), NextActive(s, id)) < |CloseIn(s.groups, id)|
    ensures Closed(s, id) == StateWithout(s, id, NextActive(s, id), CloseIn(s.groups, id), CloseIn(s.groups, id)[a].id)
  {
    hide CloseIn, FirstShowing, Without, NextActive, Shown;
  }

  lemma NextOtherActive(s: State, id: string)
    requires id in s.terminalIds && Without(s.terminalIds, id) != [] && s.activeTerminalId != id
    ensures NextActive(s, id) == s.activeTerminalId
  {
    hide CloseIn, FirstShowing, Without, GroupIndex, Shown;
  }

  /** Some other group shows each terminal that is left. */
  lemma ShownByOther(s: State, e: nat, id: string, t: string)
    requires RunInv(s) && e < |s.groups| && Shown(s.groups[e]) == [id] && t in s.terminalIds && t != id
    ensures FirstShowing(Others(s.groups, e), t) < |Others(s.groups, e)|
  {
    hide *;
    Parts(s);
    OpenIsShown(s, t);
    OthersAre(s.groups, e, ToSet(s.terminalIds));
    var k := FirstShowing(s.groups, t);
    assert s.groups[k] in Others(s.groups, e);
    var j :| 0 <= j < |Others(s.groups, e)| && Others(s.groups, e)[j] == s.groups[k];
    assert t in Shown(Others(s.groups, e)[j]);
  }

  /**
   * With its last terminal a group goes, and no other group goes with it. If that terminal was active, the one
   * beside it in the list of terminals is next: its group is active and, unless it had chosen it, turns to it.
   */
  lemma CloseAloneShows(s: State, e: nat, x: seq<string>, id: string, y: seq<string>)
    requires RunInv(s) && e < |s.groups| && Shown(s.groups[e]) == [id] && s.terminalIds == x + [id] + y && x + y != []
    ensures var r, others := Close(s, id), Others(s.groups, e);
            && (s.activeTerminalId != id ==> r == StateWithout(s, id, s.activeTerminalId, others, s.activeGroupId))
            && (s.activeTerminalId == id ==>
                  var next, a := Neighbour(x, y), FirstShowing(others, Neighbour(x, y));
                  && a < |others| && a < |r.groups|
                  && r == StateWithout(s, id, next, others[a := r.groups[a]], others[a].id)
                  && Turned(others[a], r.groups[a], next))
  {
    hide *;
    var valid, others := ToSet(s.terminalIds), Others(s.groups, e);
    Parts(s);
    NoDupIds(s);
    MiddleApart(x, id, y);
    WithoutMiddle(x, id, y);
    CloseInAlone(s, e, id);
    OthersAre(s.groups, e, valid);
    assert id in [id];
    SettledOthers(others, valid, id);
    ValidWithout(s.terminalIds, id);
    CloseResult(s, id);
    ResyncedIs(Closed(s, id));
    var next := NextActive(s, id);
    NextActiveRemains(s, id);
    assert next in s.terminalIds && next != id;
    ShownByOther(s, e, id, next);
    var a := FirstShowing(others, next);
    ClosedAloneIs(s, id, a);
    StateWithoutIs(s, id, next, others, others[a].id);
    forall i | 0 <= i < |others| && i != a
      ensures others[i].id != others[a].id
    {
      IdsDiffer(others, a, i);
    }
    SyncAt(others, a, next, valid);
    StateWithoutIs(s, id, next, SyncGroups(others, others[a].id, next), others[a].id);
    if s.activeTerminalId == id {
      NextOutside(s, e, x, id, y);
    } else {
      NextOtherActive(s, id);
      ActiveStaysOut(s, e, id, a);
      TurnedSame(others[a], Close(s, id).groups[a], next);
    }
  }

  lemma TurnedSame(g: Group, h: Group, id: string)
    requires Turned(g, h, id) && g.activeTerminalId == id
    ensures h == g
  {
  }

  /** The active group, which shows another terminal, is among the others and has chosen the active terminal. */
  lemma ActiveStaysOut(s: State, e: nat, id: string, a: nat)
    requires RunInv(s) && e < |s.groups| && Shown(s.groups[e]) == [id] && s.activeTerminalId != id
    requires a < |Others(s.groups, e)| && FirstShowing(Others(s.groups, e), s.activeTerminalId) == a
    ensures Others(s.groups, e)[a].id == s.activeGroupId && Others(s.groups, e)[a].activeTerminalId == s.activeTerminalId
  {
    hide *;
    var g := Others(s.groups, e)[a];
    OthersIs(s.groups, e);
    var k := if a < e then a else a + 1;
    assert g == s.groups[k];
    OneShows(s, k, s.activeTerminalId);
    ActiveIndex(s);
    ActiveAgrees(s);
  }
}
