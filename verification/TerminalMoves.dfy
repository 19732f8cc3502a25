/** Opening a terminal that is already open: it moves, and when that leaves the invariant behind. */
module TerminalMoves {
  import opened Strings
  import opened Sequences
  import opened UniqueNames
  import opened PaneTree
  import opened PaneNormal
  import opened PaneSplit
  import opened PaneEdit
  import opened TerminalGroups
  import opened TerminalGroupsStable
  import opened TerminalState
  import opened TerminalActions
  import opened TerminalRuns
  import opened TerminalClosing
  import opened TerminalEffects
  import opened TerminalCloseEffects
  import TerminalStore
  import TerminalFacing

  // ----- splitting a tree that is not flat -----

  lemma {:induction false} TidyMonotone(node: Node, valid: set<string>, more: set<string>)
    requires Tidy(node, valid) && valid <= more
    ensures Tidy(node, more)
    decreases node
  {
    if node.Split? {
      forall c <- node.children
        ensures Tidy(c, more)
      {
        TidyMonotone(c, valid, more);
      }
    }
  }

  lemma TidyCuts(node: Node, i: nat, valid: set<string>, more: set<string>)
    requires Tidy(node, valid) && node.Split? && i < |node.children| && valid <= more
    ensures node.children == node.children[..i] + [node.children[i]] + node.children[i + 1..]
    ensures forall c <- node.children[..i] + node.children[i + 1..] :: Tidy(c, more)
    ensures Tidy(node.children[i], valid)
  {
    forall c <- node.children[..i] + node.children[i + 1..]
      ensures Tidy(c, more)
    {
      assert c in node.children;
      TidyMonotone(c, valid, more);
    }
  }

  lemma TidyRow(node: Node, a: seq<Node>, m: seq<Node>, b: seq<Node>, valid: set<string>)
    requires node.Split? && node.children == a + m + b && m != []
    requires (forall c <- a + b :: Tidy(c, valid)) && forall c <- m :: Tidy(c, valid)
    ensures Tidy(node, valid)
  {
    assert forall c <- a :: c in a + b;
    assert forall c <- b :: c in a + b;
  }

  lemma SplitIs(node: Node, q: Request)
    requires node.Split?
    ensures var i, r := FirstContaining(node.children, q.target), SplitNode(node, q);
            && (i == |node.children| || !SplitNode(node.children[i], q).didSplit ==> r == SplitResult(node, false, false))
            && (i < |node.children| && SplitNode(node.children[i], q).didSplit ==>
                  && r.didSplit && r.node.Split? && !r.mergeIntoParent
                  && exists m :: r.node.children == node.children[..i] + m + node.children[i + 1..]
                                 && Replaces(m, SplitNode(node.children[i], q).node))
  {
    hide SplitWeights, EvenWeights, FirstContaining, SameDirection;
    var i := FirstContaining(node.children, q.target);
    if i < |node.children| && SplitNode(node.children[i], q).didSplit {
      var child := SplitNode(node.children[i], q);
      var merged := node.direction == DirectionOf(q.position) && child.mergeIntoParent && SameDirection(child.node, node.direction)
                    && child.node.children != [];
      var m := if merged then child.node.children else [child.node];
      assert SplitNode(node, q).node.children == node.children[..i] + m + node.children[i + 1..];
      IsReplaced(m, child.node, merged);
    }
  }

  lemma IsReplaced(m: seq<Node>, node: Node, merged: bool)
    requires if merged then node.Split? && m == node.children && m != [] else m == [node]
    ensures Replaces(m, node)
  {
  }

  /** These nodes stand where the one node would: itself, or its children. */
  predicate Replaces(m: seq<Node>, node: Node) {
    m == [node] || (node.Split? && m == node.children && m != [])
  }

  lemma ReplacesIs(m: seq<Node>, node: Node, valid: set<string>)
    requires Replaces(m, node) && Tidy(node, valid)
    ensures m != [] && AllTerminals(m) == Terminals(node) && forall c <- m :: Tidy(c, valid)
  {
    AllTerminalsOne(node);
  }

  lemma NestedIsTidy(leaf: Node, q: Request, valid: set<string>)
    requires leaf.Leaf? && Tidy(leaf, valid) && Clean(q.newId)
    ensures Tidy(Nested(leaf, q), valid + {q.newId})
  {
    TidyMonotone(leaf, valid, valid + {q.newId});
    NewLeafNormal(q.newId, valid + {q.newId});
  }

  lemma LeafSplit(leaf: Node, q: Request, valid: set<string>)
    requires leaf.Leaf? && Tidy(leaf, valid)
    ensures var r := SplitNode(leaf, q);
            && (q.target in Terminals(leaf) ==> r.didSplit && r.node == Nested(leaf, q))
            && (q.target !in Terminals(leaf) ==> !r.didSplit)
  {
    NormalLeafFixed(leaf, valid);
  }

  /** A tree is split exactly when it shows the target, and then it shows the new terminal once more than before. */
  lemma {:induction false} TidySplit(node: Node, q: Request, valid: set<string>)
    requires Tidy(node, valid) && Clean(q.newId)
    ensures var r := SplitNode(node, q);
            && (r.didSplit <==> q.target in Terminals(node))
            && (r.didSplit ==> Tidy(r.node, valid + {q.newId})
                               && multiset(Terminals(r.node)) == multiset(Terminals(node)) + multiset{q.newId})
    decreases node
  {
    hide *;
    match node
    case Leaf(_, _, _, _) =>
      LeafSplit(node, q, valid);
      NestedIsTidy(node, q, valid);
      NestedTerminals(node, q);
    case Split(_, _, children, _) =>
      var i := FirstContaining(children, q.target);
      SplitIs(node, q);
      if i < |children| {
        var a, c, b := children[..i], children[i], children[i + 1..];
        var child, next := SplitNode(c, q).node, SplitNode(node, q).node;
        TidyCuts(node, i, valid, valid + {q.newId});
        TidySplit(c, q, valid);
        RowTerminals(node, a, [c], b);
        AllTerminalsOne(c);
        var m :| next.children == a + m + b && Replaces(m, child);
        ReplacesIs(m, child, valid + {q.newId});
        TidyRow(next, a, m, b, valid + {q.newId});
        RowTerminals(next, a, m, b);
        SwapPart(AllTerminals(a), Terminals(c), Terminals(child), AllTerminals(b), q.newId);
        assert q.target in AllTerminals(a) + Terminals(c) + AllTerminals(b);
      } else {
        NoneContains(children, q.target);
        SplitTerminals(node);
      }
  }

  lemma SplitTerminals(node: Node)
    requires node.Split?
    ensures Terminals(node) == AllTerminals(node.children)
  {
  }

  lemma {:induction false} NoneContains(nodes: seq<Node>, id: string)
    requires forall k :: 0 <= k < |nodes| ==> id !in Terminals(nodes[k])
    ensures id !in AllTerminals(nodes)
  {
    if nodes != [] {
      assert forall k :: 0 <= k < |nodes[1..]| ==> nodes[1..][k] == nodes[k + 1];
      NoneContains(nodes[1..], id);
    }
  }

  lemma SplitTidyGroup(g: Group, q: Request, valid: set<string>)
    requires TidyGroup(g, valid) && Clean(q.newId)
    ensures q.target !in Shown(g) ==> SplitGroup(g, q) == g
    ensures q.target in Shown(g) ==>
              var r := SplitGroup(g, q);
              && r.id == g.id && r.activeTerminalId == q.newId && TidyGroup(r, valid + {q.newId})
              && multiset(Shown(r)) == multiset(Shown(g)) + multiset{q.newId}
  {
    TidySplit(g.layout, q, valid);
    hide Tidy, Terminals, SplitNode;
    if q.target in Shown(g) {
      var r := SplitGroup(g, q);
      assert multiset(Shown(r))[q.newId] > 0;
    }
  }

  lemma SameMembers(more: seq<string>, less: seq<string>, id: string)
    requires multiset(more) == multiset(less) + multiset{id}
    ensures ToSet(more) == ToSet(less) + {id} && |more| == |less| + 1
  {
    assert |multiset(more)| == |more| && |multiset(less)| == |less|;
    forall t
      ensures t in more <==> t in less || t == id
    {
      assert t in more <==> t in multiset(more);
      assert t in less <==> t in multiset(less);
    }
  }

  // ----- the groups it leaves behind -----

  lemma TidyGroups(gs: seq<Group>, valid: set<string>, more: set<string>)
    requires AllTidy(gs, valid) && valid <= more
    ensures AllTidy(gs, more)
  {
    hide Tidy, Terminals;
    forall i | 0 <= i < |gs|
      ensures TidyGroup(gs[i], more)
    {
      TidyMonotone(gs[i].layout, valid, more);
    }
  }

  /** A terminal that opens elsewhere first leaves its pane, as if it were closed. */
  lemma LeftBehind(s: State, id: string)
    requires RunInv(s) && id in s.terminalIds
    ensures var gs := WithoutTerminal(s, id);
            && gs == CloseIn(s.groups, id) && Faces(gs) == CloseFaces(Faces(s.groups), id)
            && Separate(gs) && AllFit(gs) && Covered(gs) == ToSet(s.terminalIds) - {id}
            && AllTidy(gs, ToSet(s.terminalIds) - {id}) && AllTidy(gs, ToSet(s.terminalIds))
  {
    hide *;
    Parts(s);
    OpenIsShown(s, id);
    var e := FirstShowing(s.groups, id);
    WithoutIs(s, id);
    OneShows(s, e, id);
    CloseInAt(s.groups, e, id, ToSet(s.terminalIds));
    ClosedGroups(s, id);
    ValidWithout(s.terminalIds, id);
    TidyGroups(WithoutTerminal(s, id), ToSet(s.terminalIds) - {id}, ToSet(s.terminalIds));
  }

  lemma WithoutIs(s: State, id: string)
    ensures var e := FirstShowing(s.groups, id);
            e < |s.groups| ==> id in Shown(s.groups[e]) && WithoutTerminal(s, id) == CloseAt(s.groups, e, id)
  {
    hide CloseAt, Shown;
  }

  // ----- what the normaliser makes of the moved state -----

  function Moved(s: State, id: string, groups: seq<Group>, groupId: string): State {
    s.(view := s.view.(open := true), activeTerminalId := id, groups := groups, activeGroupId := groupId)
  }

  lemma MovedParts(s: State, id: string, groups: seq<Group>, groupId: string)
    ensures var c := Moved(s, id, groups, groupId);
            && c.terminalIds == s.terminalIds && c.running == s.running && c.groups == groups && c.activeGroupId == groupId
            && c.activeTerminalId == id
  {
  }

  lemma CandidateWhen(c: State)
    requires IdsOk(c.terminalIds) && c.groups != [] && Separate(c.groups) && Covered(c.groups) == ToSet(c.terminalIds)
    requires AllTidy(c.groups, ToSet(c.terminalIds)) && c.activeTerminalId in c.terminalIds
    requires ActiveShown(c.groups, c.activeGroupId, c.activeTerminalId) && NoDup(c.running) && AllClean(c.running)
    ensures Candidate(c) <==> AllFit(c.groups)
  {
    hide IdsOk, Separate, Covered, TidyGroup, ActiveShown, NoDup, AllClean, AllFit;
  }

  /** The groups come out as they are, and the invariant holds exactly if none is over the cap. */
  lemma MovedNormalizes(s: State, id: string, groups: seq<Group>, groupId: string)
    requires RunInv(s) && id in s.terminalIds && groups != [] && Separate(groups) && Covered(groups) == ToSet(s.terminalIds)
    requires AllTidy(groups, ToSet(s.terminalIds)) && ActiveShown(groups, groupId, id)
    ensures var r := Renormalize(Moved(s, id, groups, groupId));
            && (RunInv(r) <==> AllFit(groups)) && Faces(r.groups) == Faces(groups)
            && r.terminalIds == s.terminalIds && r.activeTerminalId == id && r.activeGroupId == groupId
  {
    hide *;
    var c, valid := Moved(s, id, groups, groupId), ToSet(s.terminalIds);
    MovedParts(s, id, groups, groupId);
    InvariantIsCandidate(s);
    CandidateParts(s);
    CandidateWhen(c);
    var settled := SettleAll(groups, valid);
    NormalizeIdsOk(s.terminalIds);
    AllTidyIs(groups, valid);
    TidyGroupsSettle(groups, s.terminalIds);
    SettleKeepsFaces(groups, valid);
    SameFacesFit(groups, settled);
    ResolvesToShown(settled, groupId, id);
    SyncKeepsFaces(settled, groupId, id, valid);
    NormalizedParts(c, settled);
    var r := Renormalize(c);
    SameFacesFit(groups, r.groups);
    if AllFit(groups) {
      CandidateNormalizes(c);
    } else if RunInv(r) {
      Parts(r);
    }
  }

  lemma AllTidyIs(gs: seq<Group>, valid: set<string>)
    requires AllTidy(gs, valid)
    ensures forall i :: 0 <= i < |gs| ==> TidyGroup(gs[i], valid)
  {
  }

  // ----- alone -----

  lemma OpenIdIsClean(s: State, id: string)
    requires RunInv(s) && id in s.terminalIds
    ensures Clean(id) && Trim(id) == id && id != ""
  {
    IdsAreAllClean(s);
    var i :| 0 <= i < |s.terminalIds| && s.terminalIds[i] == id;
    TrimIsTrimmed(id);
  }

  lemma IdsAreAllClean(s: State)
    requires RunInv(s)
    ensures AllClean(s.terminalIds)
  {
    hide AllClean;
    InvariantIsCandidate(s);
  }

  lemma OneMoreGroup(gs: seq<Group>, g: Group, ids: set<string>, id: string)
    requires Separate(gs) && AllFit(gs) && Covered(gs) == ids - {id} && id in ids && AllTidy(gs, ids)
    requires TidyGroup(g, ids) && g.id !in GroupIds(gs) && Shown(g) == [id]
    ensures var hs := gs + [g];
            && Separate(hs) && AllFit(hs) && Covered(hs) == ids && AllTidy(hs, ids) && ActiveShown(hs, g.id, id)
            && Faces(hs) == Faces(gs) + [Face(g.id, [id])]
  {
    hide TidyGroup, Shown;
    var hs := gs + [g];
    CoveredSnoc(gs, g);
    assert ToSet([id]) == {id};
    forall i, j | 0 <= i < j < |hs|
      ensures TerminalGroups.Apart(hs[i], hs[j])
    {
      if j == |gs| {
        assert gs[i].id in GroupIds(gs);
        assert forall t <- Shown(gs[i]) :: t in Covered(gs);
      } else {
        assert TerminalGroups.Apart(gs[i], gs[j]);
      }
    }
    assert hs[|gs|] == g && Fits(g);
  }

  /** An open terminal opened alone leaves its pane and is a group of its own, the last one, and active. */
  lemma MoveAlone(s: State, id: string)
    requires RunInv(s) && id in s.terminalIds
    ensures var r, left := OpenAlone(s, id), CloseFaces(Faces(s.groups), id);
            && RunInv(r) && r.terminalIds == s.terminalIds && r.activeTerminalId == id
            && Faces(r.groups) == left + [Face(r.activeGroupId, [id])]
            && FirstGroupId(r.activeGroupId, "group-" + id, GroupIds(WithoutTerminal(s, id)))
  {
    hide *;
    Parts(s);
    OpenIdIsClean(s, id);
    LeftBehind(s, id);
    var gs, valid := WithoutTerminal(s, id), ToSet(s.terminalIds);
    var groupId := UniqueGroupId(FallbackGroupId(id), GroupIds(gs));
    NewGroupHasId(groupId, id);
    OpenInSet(s.terminalIds, id);
    FallbackIs(id);
    GroupIdIsFirst(FallbackGroupId(id), GroupIds(gs));
    SingleGroupTidy(groupId, id, valid);
    OneMoreGroup(gs, NewGroup(groupId, id), valid, id);
    OpenAloneIs(s, id);
    MovedNormalizes(s, id, gs + [NewGroup(groupId, id)], groupId);
  }

  lemma OpenInSet(ids: seq<string>, id: string)
    requires id in ids
    ensures id in ToSet(ids)
  {
  }

  lemma NewGroupHasId(groupId: string, id: string)
    ensures NewGroup(groupId, id).id == groupId
  {
  }

  lemma FallbackIs(id: string)
    requires Clean(id)
    ensures FallbackGroupId(id) == "group-" + id && Clean(FallbackGroupId(id))
  {
    PrefixIsClean("group-", id);
  }

  lemma SingleGroupTidy(groupId: string, id: string, valid: set<string>)
    requires Clean(groupId) && Clean(id) && id in valid
    ensures TidyGroup(NewGroup(groupId, id), valid) && Shown(NewGroup(groupId, id)) == [id]
  {
    NewGroupOk(groupId, id, valid);
    SettledIsFixed(NewGroup(groupId, id), valid);
  }

  lemma OpenAloneIs(s: State, id: string)
    requires Renormalize(s) == s && Trim(id) != "" && id in s.terminalIds
    ensures var gs := WithoutTerminal(s, id);
            var groupId := UniqueGroupId(FallbackGroupId(id), GroupIds(gs));
            OpenAlone(s, id) == Renormalize(Moved(s, id, gs + [NewGroup(groupId, id)], groupId))
  {
    hide Renormalize, WithoutTerminal, UniqueGroupId, GroupIds, FallbackGroupId, NewGroup, Trim;
  }

  // ----- beside the active terminal -----

  /** A terminal that shows with others in the active group can move within it; one of another group needs room there. */
  predicate MovesWell(s: State, id: string) {
    var a := GroupIndex(s.groups, s.activeGroupId);
    a < |s.groups| &&
    if id == s.activeTerminalId then Shown(s.groups[a]) == [id]
    else id in Shown(s.groups[a]) || |Shown(s.groups[a])| < 6
  }

  lemma OpenBesideIs(s: State, id: string, position: Position)
    requires Renormalize(s) == s && Trim(id) != "" && id in s.terminalIds
    ensures var gs := WithoutTerminal(s, id);
            var d := Destination(s, gs);
            var q := Request(s.activeTerminalId, id, position, "split-" + id);
            OpenBeside(s, id, position) ==
            Renormalize(Moved(s, id, if id in Shown(d.0[d.1]) then d.0 else d.0[d.1 := SplitGroup(d.0[d.1], q)],
                              (if id in Shown(d.0[d.1]) then d.0 else d.0[d.1 := SplitGroup(d.0[d.1], q)])[d.1].id))
  {
    hide Renormalize, WithoutTerminal, Destination, SplitGroup, Shown, Trim;
  }

  lemma DestinationIs(s: State, gs: seq<Group>)
    ensures var a, b := GroupIndex(gs, s.activeGroupId), FirstShowing(gs, s.activeTerminalId);
            var own := UniqueGroupId(FallbackGroupId(s.activeTerminalId), GroupIds(gs));
            && (a < |gs| ==> Destination(s, gs) == (gs, a))
            && (a == |gs| && b == |gs| ==> Destination(s, gs) == (gs + [NewGroup(own, s.activeTerminalId)], |gs|))
  {
    hide FirstShowing, UniqueGroupId, NewGroup, FallbackGroupId, GroupIds;
  }

  /** Of the active group the others stay; the group goes exactly when it showed the moving terminal alone. */
  lemma ActiveLeft(s: State, id: string)
    requires RunInv(s) && id in s.terminalIds
    ensures var gs, a := WithoutTerminal(s, id), GroupIndex(s.groups, s.activeGroupId);
            var d := GroupIndex(gs, s.activeGroupId);
            && a < |s.groups|
            && (d == |gs| <==> Shown(s.groups[a]) == [id])
            && (d < |gs| ==> gs[d].id == s.activeGroupId && Shown(gs[d]) == Without(Shown(s.groups[a]), id))
            && (Shown(s.groups[a]) == [id] ==> id == s.activeTerminalId)
  {
    hide *;
    var gs, a := WithoutTerminal(s, id), GroupIndex(s.groups, s.activeGroupId);
    Parts(s);
    ActiveIndex(s);
    LeftBehind(s, id);
    GroupAt(s, a);
    OnlyOne(Shown(s.groups[a]), id);
    var face := Face(s.activeGroupId, Without(Shown(s.groups[a]), id));
    FaceAt(s.groups, a);
    assert Faces(s.groups)[a].id == s.activeGroupId;
    if Without(Shown(s.groups[a]), id) != [] {
      FaceStays(Faces(s.groups), a, id);
      var k :| 0 <= k < |gs| && Faces(gs)[k] == face;
      OneWithId(gs, k);
    } else {
      FaceGoes(s.groups, a, id);
      NoneWithId(gs, s.activeGroupId);
    }
  }

  lemma FaceAt(gs: seq<Group>, a: nat)
    requires a < |gs|
    ensures Faces(gs)[a] == Face(gs[a].id, Shown(gs[a]))
  {
  }

  lemma OnlyOne(ids: seq<string>, id: string)
    requires NoDup(ids) && ids != []
    ensures Without(ids, id) == [] <==> ids == [id]
    ensures forall t :: t in Without(ids, id) <==> t in ids && t != id
    ensures |Without(ids, id)| == if id in ids then |ids| - 1 else |ids|
  {
    WithoutNoDup(ids, id);
    var rest := Without(ids, id);
    if id in ids {
      var i :| 0 <= i < |ids| && ids[i] == id;
      assert ids == ids[..i] + [id] + ids[i + 1..];
      MiddleApart(ids[..i], id, ids[i + 1..]);
      WithoutMiddle(ids[..i], id, ids[i + 1..]);
    } else {
      assert ids[0] in rest;
      NothingWithout(ids, id);
    }
  }

  lemma {:induction false} NothingWithout(ids: seq<string>, id: string)
    requires id !in ids
    ensures Without(ids, id) == ids
  {
    if ids != [] {
      NothingWithout(ids[1..], id);
    }
  }

  lemma OneWithId(gs: seq<Group>, k: nat)
    requires Separate(gs) && k < |gs|
    ensures GroupIndex(gs, gs[k].id) == k && Faces(gs)[k] == Face(gs[k].id, Shown(gs[k]))
  {
    hide Shown, Separate;
    forall i | 0 <= i < k
      ensures gs[i].id != gs[k].id
    {
      IdsDiffer(gs, i, k);
    }
    GroupIndexIs(gs, k);
  }

  lemma NoneWithId(gs: seq<Group>, id: string)
    requires forall i :: 0 <= i < |gs| ==> Faces(gs)[i].id != id
    ensures GroupIndex(gs, id) == |gs|
  {
    hide Shown;
    forall i | 0 <= i < |gs|
      ensures gs[i].id != id
    {
      assert Faces(gs)[i].id != id;
    }
  }

  /** A group that showed only the closed terminal is not among the groups left. */
  lemma FaceGoes(gs: seq<Group>, a: nat, id: string)
    requires Separate(gs) && a < |gs| && Without(Shown(gs[a]), id) == []
    ensures forall f <- CloseFaces(Faces(gs), id) :: f.id != gs[a].id
  {
    hide Shown, Separate;
    var fs := Faces(gs);
    CloseFacesFrom(fs, id);
    forall f <- CloseFaces(fs, id)
      ensures f.id != gs[a].id
    {
      var k :| 0 <= k < |fs| && f.id == fs[k].id && Without(fs[k].shown, id) != [];
      if k != a {
        IdsDiffer(gs, a, k);
      }
    }
  }

  lemma {:induction false} CloseFacesFrom(fs: seq<Face>, id: string)
    ensures forall f <- CloseFaces(fs, id) :: exists k :: 0 <= k < |fs| && f.id == fs[k].id && Without(fs[k].shown, id) != []
  {
    if fs != [] {
      CloseFacesFrom(fs[1..], id);
      forall f <- CloseFaces(fs, id)
        ensures exists k :: 0 <= k < |fs| && f.id == fs[k].id && Without(fs[k].shown, id) != []
      {
        if f in CloseFaces(fs[1..], id) {
          var k :| 0 <= k < |fs[1..]| && f.id == fs[1..][k].id && Without(fs[1..][k].shown, id) != [];
          assert fs[k + 1] == fs[1..][k];
        } else {
          assert f.id == fs[0].id && Without(fs[0].shown, id) != [];
        }
      }
    }
  }

  lemma GrownTidy(gs: seq<Group>, d: nat, h: Group, ids: set<string>, id: string)
    requires Separate(gs) && AllFit(gs) && Covered(gs) == ids - {id} && id in ids && AllTidy(gs, ids) && d < |gs|
    requires h.id == gs[d].id && TidyGroup(h, ids) && multiset(Shown(h)) == multiset(Shown(gs[d])) + multiset{id}
    ensures var hs := gs[d := h];
            && Separate(hs) && Covered(hs) == ids && AllTidy(hs, ids) && ActiveShown(hs, h.id, id)
            && (AllFit(hs) <==> |Shown(gs[d])| < 6)
  {
    hide TidyGroup, Shown;
    var hs := gs[d := h];
    SameMembers(Shown(h), Shown(gs[d]), id);
    GrownApart(gs, d, h, id);
    GrownCover(gs, d, h, id);
    assert id in ToSet(Shown(h)) && hs[d] == h;
    assert id !in Shown(gs[d]) by {
      assert id !in Covered(gs);
    }
    FitsGrown(gs[d], h, id);
    if AllFit(hs) {
      assert Fits(hs[d]);
    }
    assert Fits(gs[d]);
  }

  lemma FitsGrown(g: Group, h: Group, id: string)
    requires Fits(g) && id !in Shown(g) && multiset(Shown(h)) == multiset(Shown(g)) + multiset{id}
    ensures Fits(h) <==> |Shown(g)| < 6
  {
    hide Shown;
    CapIsSix();
    SameMembers(Shown(h), Shown(g), id);
    NoDupGrown(Shown(h), Shown(g), id);
  }

  lemma NoDupGrown(more: seq<string>, less: seq<string>, id: string)
    requires NoDup(less) && id !in less && multiset(more) == multiset(less) + multiset{id}
    ensures NoDup(more)
  {
    NoDupMultiset(less);
    forall i, j | 0 <= i < j < |more|
      ensures more[i] != more[j]
    {
      Twice(more, i, j);
      assert more[i] in less <==> multiset(less)[more[i]] > 0;
    }
  }

  lemma Twice(s: seq<string>, i: nat, j: nat)
    requires i < j < |s|
    ensures s[i] == s[j] ==> multiset(s)[s[i]] >= 2
  {
    assert s == s[..i] + [s[i]] + s[i + 1..j] + [s[j]] + s[j + 1..];
  }

  lemma FitsAt(g: Group)
    requires Fits(g)
    ensures |Shown(g)| <= 6
  {
    hide Shown;
  }

  /** Beside the active terminal an open one moves into the active group, which keeps its other terminals. */
  lemma MoveBeside(s: State, id: string, position: Position)
    requires RunInv(s) && id in s.terminalIds && id != s.activeTerminalId
    ensures var r, gs := OpenBeside(s, id, position), WithoutTerminal(s, id);
            var a, d := GroupIndex(s.groups, s.activeGroupId), GroupIndex(gs, s.activeGroupId);
            && a < |s.groups| && d < |gs| && Faces(gs) == CloseFaces(Faces(s.groups), id)
            && (RunInv(r) <==> id in Shown(s.groups[a]) || |Shown(s.groups[a])| < 6)
            && r.terminalIds == s.terminalIds && r.activeTerminalId == id && r.activeGroupId == s.activeGroupId
            && |r.groups| == |gs| && (forall i :: 0 <= i < |gs| && i != d ==> Faces(r.groups)[i] == Faces(gs)[i])
            && r.groups[d].id == s.activeGroupId
            && multiset(Shown(r.groups[d])) == multiset(Without(Shown(s.groups[a]), id)) + multiset{id}
  {
    hide *;
    var gs, ids := WithoutTerminal(s, id), ToSet(s.terminalIds);
    var a, d := GroupIndex(s.groups, s.activeGroupId), GroupIndex(gs, s.activeGroupId);
    var q := Request(s.activeTerminalId, id, position, "split-" + id);
    Parts(s);
    OpenIdIsClean(s, id);
    OpenInSet(s.terminalIds, id);
    LeftBehind(s, id);
    ActiveLeft(s, id);
    ActiveIndex(s);
    GroupAt(s, a);
    FitsAt(s.groups[a]);
    OnlyOne(Shown(s.groups[a]), id);
    DestinationIs(s, gs);
    OpenBesideIs(s, id, position);
    AllTidyIs(gs, ids - {id});
    SplitTidyGroup(gs[d], q, ids - {id});
    var h := SplitGroup(gs[d], q);
    assert ids - {id} + {id} == ids;
    GrownTidy(gs, d, h, ids, id);
    NotLeft(gs, d, id);
    var hs := gs[d := h];
    MovedNormalizes(s, id, hs, h.id);
    var r := OpenBeside(s, id, position);
    FacesUpdate(gs, d, h);
    FaceAt(r.groups, d);
    FaceAt(hs, d);
  }

  lemma NotLeft(gs: seq<Group>, d: nat, id: string)
    requires id !in Covered(gs) && d < |gs|
    ensures id !in Shown(gs[d])
  {
    hide Shown;
  }

  lemma FacesUpdate(gs: seq<Group>, d: nat, h: Group)
    requires d < |gs|
    ensures forall i :: 0 <= i < |gs| && i != d ==> Faces(gs[d := h])[i] == Faces(gs)[i]
  {
    hide Shown;
  }

  /** The active terminal alone in its group moves beside itself: it gets a group of its own, at the end. */
  lemma MoveAloneBeside(s: State, id: string, position: Position)
    requires RunInv(s) && id == s.activeTerminalId && id in s.terminalIds
    requires Shown(s.groups[GroupIndex(s.groups, s.activeGroupId)]) == [id]
    ensures OpenBeside(s, id, position) == OpenAlone(s, id)
  {
    hide *;
    var gs := WithoutTerminal(s, id);
    Parts(s);
    OpenIdIsClean(s, id);
    LeftBehind(s, id);
    ActiveLeft(s, id);
    NotShownAtAll(gs, id);
    DestinationIs(s, gs);
    OpenBesideIs(s, id, position);
    OpenAloneIs(s, id);
    var groupId := UniqueGroupId(FallbackGroupId(id), GroupIds(gs));
    NewGroupHasId(groupId, id);
    OpenInSet(s.terminalIds, id);
    FallbackIs(id);
    SingleGroupTidy(groupId, id, ToSet(s.terminalIds));
    assert id in [id];
    assert (gs + [NewGroup(groupId, id)])[|gs|] == NewGroup(groupId, id);
  }

  lemma NotShownAtAll(gs: seq<Group>, id: string)
    requires id !in Covered(gs)
    ensures FirstShowing(gs, id) == |gs|
  {
    hide Shown;
  }

  // ----- the active terminal of a group with others -----

  lemma {:induction false} FillsOne(acc: Repair, ids: seq<string>, id: string)
    requires NoDup(ids) && id in ids && id !in acc.placed && forall t <- ids :: t != id ==> t in acc.placed
    ensures FillGroups(acc, ids) == FillGroup(acc, id)
  {
    var front, last := ids[..|ids| - 1], ids[|ids| - 1];
    assert ids == front + [last];
    NoDupConcat(front, [last]);
    assert last in [last];
    if last == id {
      forall t <- front
        ensures t in acc.placed
      {
        assert t in ids;
      }
      NothingToFill(acc, front);
    } else {
      FillsOne(acc, front, id);
      assert last in ids;
    }
  }

  lemma LeftOutGetsGroup(s: State, gs: seq<Group>, id: string)
    requires IdsOk(s.terminalIds) && id in s.terminalIds && gs != []
    requires Separate(gs) && AllTidy(gs, ToSet(s.terminalIds)) && Covered(gs) == ToSet(s.terminalIds) - {id}
    ensures var groupId := UniqueGroupId(FallbackGroupId(id), GroupIds(gs));
            NormalizeGroups(StoredAll(gs), s.terminalIds) == SettleAll(gs, ToSet(s.terminalIds)) + [NewGroup(groupId, id)]
  {
    hide Shown, Tidy, Separate, Covered, AddGroups, Settle, UniqueGroupId;
    AddTidyGroups(gs, ToSet(s.terminalIds));
    var acc := Repair(SettleAll(gs, ToSet(s.terminalIds)), Covered(gs), GroupIds(gs));
    forall t <- s.terminalIds | t != id
      ensures t in acc.placed
    {
      assert t in ToSet(s.terminalIds);
    }
    FillsOne(acc, s.terminalIds, id);
  }

  /** Moving the active terminal of a group with others breaks the invariant: it is active outside the active group. */
  lemma MoveActiveAway(s: State, id: string, position: Position)
    requires RunInv(s) && id == s.activeTerminalId && id in s.terminalIds
    requires Shown(s.groups[GroupIndex(s.groups, s.activeGroupId)]) != [id]
    ensures !RunInv(OpenBeside(s, id, position))
  {
    hide *;
    var gs, ids := WithoutTerminal(s, id), ToSet(s.terminalIds);
    var d, groupId := GroupIndex(gs, s.activeGroupId), UniqueGroupId(FallbackGroupId(id), GroupIds(gs));
    var q := Request(s.activeTerminalId, id, position, "split-" + id);
    Parts(s);
    OpenIdIsClean(s, id);
    LeftBehind(s, id);
    ActiveLeft(s, id);
    DestinationIs(s, gs);
    OpenBesideIs(s, id, position);
    NotLeft(gs, d, id);
    AllTidyIs(gs, ids);
    SplitTidyGroup(gs[d], q, ids);
    assert gs[d := gs[d]] == gs;
    var c, groups := Moved(s, id, gs, s.activeGroupId), SettleAll(gs, ids) + [NewGroup(groupId, id)];
    MovedParts(s, id, gs, s.activeGroupId);
    InvariantIsCandidate(s);
    CandidateParts(s);
    NormalizeIdsOk(s.terminalIds);
    LeftOutGetsGroup(s, gs, id);
    NormalizeGroupsPartition(StoredAll(gs), s.terminalIds);
    SettleKeepsFaces(gs, ids);
    SameFacesFit(gs, SettleAll(gs, ids));
    NewGroupHasId(groupId, id);
    OneMoreId(gs, d, SettleAll(gs, ids), NewGroup(groupId, id), id);
    TerminalStore.StrayParts(c, groups);
    SyncKeepsFaces(groups, s.activeGroupId, id, ids);
    var r := Renormalize(c);
    SameFacesFit(r.groups, groups);
    if RunInv(r) {
      RunShowsActive(r);
    }
  }

  lemma RunShowsActive(r: State)
    requires RunInv(r)
    ensures ActiveShown(r.groups, r.activeGroupId, r.activeTerminalId)
  {
  }

  lemma OneMoreId(gs: seq<Group>, d: nat, settled: seq<Group>, g: Group, id: string)
    requires Faces(settled) == Faces(gs) && d < |gs| && id !in Covered(gs) && g.id !in GroupIds(gs)
    ensures var hs := settled + [g]; gs[d].id in GroupIds(hs) && !ActiveShown(hs, gs[d].id, id)
  {
    hide Shown;
    var hs := settled + [g];
    forall i | 0 <= i < |gs|
      ensures hs[i].id == gs[i].id && id !in Shown(hs[i])
    {
      assert Faces(settled)[i] == Faces(gs)[i];
    }
    assert hs[d].id in GroupIds(hs);
  }

  /**
   * Opening an open terminal beside the active one keeps the invariant exactly when it is the active one and
   * alone in its group, or another one of the active group, or that group has room for it.
   */
  lemma MoveBesideIff(s: State, id: string, position: Position)
    requires RunInv(s) && id in s.terminalIds
    ensures RunInv(OpenBeside(s, id, position)) <==> MovesWell(s, id)
  {
    hide RunInv, OpenBeside, Shown, OpenAlone, Faces, WithoutTerminal;
    ActiveIndex(s);
    if id != s.activeTerminalId {
      MoveBeside(s, id, position);
    } else if Shown(s.groups[GroupIndex(s.groups, s.activeGroupId)]) == [id] {
      MoveAloneBeside(s, id, position);
      MoveAlone(s, id);
    } else {
      MoveActiveAway(s, id, position);
    }
  }

  // ----- openings that do nothing -----

  /** Without an id nothing opens, and an open terminal is not opened as a tab. */
  lemma NothingOpens(s: State, target: string, id: string, position: Position)
    ensures Trim(id) == "" ==> OpenAlone(s, id) == OpenBeside(s, id, position) == OpenTab(s, target, id) == Renormalize(s)
    ensures id in Renormalize(s).terminalIds ==> OpenTab(s, target, id) == Renormalize(s)
  {
    hide Renormalize, Trim, WithoutTerminal, Destination;
  }

  /** Two tabs in one pane, the second active: opened beside itself, it ends up outside the active group. */
  lemma ActiveMovesAway()
    ensures var s := OpenTab(DefaultState(), DEFAULT_TERMINAL_ID, "a");
            RunInv(s) && "a" in s.terminalIds && forall position :: !RunInv(OpenBeside(s, "a", position))
  {
    hide *;
    var id, s0 := DEFAULT_TERMINAL_ID, DefaultState();
    TerminalFacing.FirstStage();
    TerminalFacing.NextTab(s0, [id], id, id, "a");
    TerminalFacing.StepOf(s0, AOpenTab(id, "a"));
    var s := OpenTab(s0, id, "a");
    assert [id] + ["a"] == [id, "a"];
    StageFacts(s, [id, "a"], "a");
    forall position
      ensures !RunInv(OpenBeside(s, "a", position))
    {
      MoveBesideIff(s, "a", position);
      if MovesWell(s, "a") {
        MovesWellIs(s, "a");
        assert false;
      }
    }
  }

  lemma MovesWellIs(s: State, id: string)
    requires MovesWell(s, id) && id == s.activeTerminalId
    ensures var a := GroupIndex(s.groups, s.activeGroupId); a < |s.groups| && Shown(s.groups[a]) == [id]
  {
    hide Shown;
  }

  lemma StageFacts(s: State, ids: seq<string>, chosen: string)
    requires TerminalFacing.Stage(s, ids, chosen) && chosen in ids
    ensures RunInv(s) && chosen in s.terminalIds && s.activeTerminalId == chosen
    ensures var a := GroupIndex(s.groups, s.activeGroupId); a < |s.groups| && Shown(s.groups[a]) == ids
  {
    hide RunInv, Shown, TerminalFacing.AllInSight;
    TerminalFacing.TabsShow(s, ids, chosen);
    ActiveIndex(s);
    ActiveAgrees(s);
  }
}
