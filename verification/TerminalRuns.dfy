/** What every run of terminal actions keeps. */
module TerminalRuns {
  import opened Strings
  import opened Sequences
  import opened Wrappers
  import opened UniqueNames
  import opened PaneTree
  import opened PaneSplit
  import opened PaneEdit
  import opened PaneUpdate
  import opened TerminalGroups
  import opened TerminalGroupsStable
  import opened TerminalState
  import opened TerminalActions

  /** No terminal twice in a group, and no more terminals than the cap. */
  predicate Fits(g: Group) {
    NoDup(Shown(g)) && |Shown(g)| <= MAX_TERMINALS_PER_GROUP
  }

  predicate AllFit(gs: seq<Group>) {
    forall i :: 0 <= i < |gs| ==> Fits(gs[i])
  }

  predicate ActiveShown(gs: seq<Group>, groupId: string, active: string) {
    exists i :: 0 <= i < |gs| && gs[i].id == groupId && active in Shown(gs[i])
  }

  /**
   * The invariant of every run: a settled state in which each terminal sits in exactly one pane of
   * one group, no group is over the cap, and the active group shows the active terminal.
   */
  predicate RunInv(s: State) {
    && Settled(s) && NoDup(s.running) && AllFit(s.groups)
    && ActiveShown(s.groups, s.activeGroupId, s.activeTerminalId)
  }

  /** A state handed to the normaliser: right in all but the flatness of its layouts and its records. */
  predicate Candidate(c: State) {
    && IdsOk(c.terminalIds)
    && c.groups != [] && Separate(c.groups) && Covered(c.groups) == ToSet(c.terminalIds)
    && (forall i :: 0 <= i < |c.groups| ==> TidyGroup(c.groups[i], ToSet(c.terminalIds)))
    && AllFit(c.groups)
    && c.activeTerminalId in c.terminalIds
    && ActiveShown(c.groups, c.activeGroupId, c.activeTerminalId)
    && NoDup(c.running) && AllClean(c.running)
  }

  /** A group's id and terminals, which flattening and tab changes leave alone. */
  datatype Face = Face(id: string, shown: seq<string>)

  function Faces(gs: seq<Group>): (r: seq<Face>)
    ensures |r| == |gs| && forall i :: 0 <= i < |gs| ==> r[i] == Face(gs[i].id, Shown(gs[i]))
  {
    seq(|gs|, i requires 0 <= i < |gs| => Face(gs[i].id, Shown(gs[i])))
  }

  lemma SameFacesFit(gs: seq<Group>, hs: seq<Group>)
    requires Faces(gs) == Faces(hs)
    ensures AllFit(gs) <==> AllFit(hs)
    ensures forall groupId, active :: ActiveShown(gs, groupId, active) <==> ActiveShown(hs, groupId, active)
    ensures GroupIds(gs) == GroupIds(hs) && Covered(gs) == Covered(hs)
  {
    hide Terminals;
    assert |gs| == |hs|;
    forall i | 0 <= i < |gs|
      ensures gs[i].id == hs[i].id && Shown(gs[i]) == Shown(hs[i])
    {
      assert Faces(gs)[i] == Faces(hs)[i];
    }
  }

  lemma RunningKept(running: seq<string>, ids: seq<string>)
    requires NoDup(running) && AllClean(running)
    ensures NoDup(NormalizeRunning(running, ids))
    ensures (forall id <- running :: id in ids) ==> NormalizeRunning(running, ids) == running
  {
    TrimAllClean(running);
    assert "" !in running;
    RestrictNoDup(running, ToSet(ids));
  }

  lemma SettleKeepsFaces(gs: seq<Group>, valid: set<string>)
    requires forall i :: 0 <= i < |gs| ==> TidyGroup(gs[i], valid)
    ensures Faces(SettleAll(gs, valid)) == Faces(gs)
  {
    forall i | 0 <= i < |gs|
      ensures Faces(SettleAll(gs, valid))[i] == Faces(gs)[i]
    {
      StoredTidyGroup(gs[i], valid);
    }
  }

  lemma SyncKeepsFaces(gs: seq<Group>, groupId: string, active: string, valid: set<string>)
    requires Partition(gs, valid)
    ensures Faces(SyncGroups(gs, groupId, active)) == Faces(gs)
  {
    SyncGroupsOk(gs, groupId, active, valid);
    forall i | 0 <= i < |gs|
      ensures Faces(SyncGroups(gs, groupId, active))[i] == Faces(gs)[i]
    {
    }
  }

  lemma ResolvesToShown(gs: seq<Group>, groupId: string, active: string)
    requires ActiveShown(gs, groupId, active)
    ensures ResolveGroupId(gs, groupId, active) == groupId
  {
    hide Terminals;
  }

  /** Normalising a candidate gives a state of the invariant with the same terminals, groups and choices. */
  lemma CandidateNormalizes(c: State)
    requires Candidate(c)
    ensures var r := Renormalize(c);
            && RunInv(r) && r.terminalIds == c.terminalIds && r.activeTerminalId == c.activeTerminalId
            && r.activeGroupId == c.activeGroupId && Faces(r.groups) == Faces(c.groups)
            && (c.view.height > 0.0 ==> r.view == c.view)
  {
    var r := Renormalize(c);
    var valid := ToSet(c.terminalIds);
    var settled := SettleAll(c.groups, valid);
    NormalizeSettles(Store(c));
    NormalizeIdsOk(c.terminalIds);
    TidyGroupsSettle(c.groups, c.terminalIds);
    RunningKept(c.running, c.terminalIds);
    SettleKeepsFaces(c.groups, valid);
    SameFacesFit(c.groups, settled);
    ResolvesToShown(settled, c.activeGroupId, c.activeTerminalId);
    SyncKeepsFaces(settled, c.activeGroupId, c.activeTerminalId, valid);
    NormalizedParts(c, settled);
    SameFacesFit(settled, r.groups);
  }

  lemma NormalizedParts(c: State, settled: seq<Group>)
    requires NormalizeIds(c.terminalIds) == c.terminalIds && c.activeTerminalId in c.terminalIds
    requires NormalizeGroups(StoredAll(c.groups), c.terminalIds) == settled
    requires ResolveGroupId(settled, c.activeGroupId, c.activeTerminalId) == c.activeGroupId
    ensures var r := Renormalize(c);
            && r.terminalIds == c.terminalIds && r.activeTerminalId == c.activeTerminalId
            && r.activeGroupId == c.activeGroupId
            && r.groups == SyncGroups(settled, c.activeGroupId, c.activeTerminalId)
            && r.running == NormalizeRunning(c.running, c.terminalIds)
            && (c.view.height > 0.0 ==> r.view == c.view)
  {
    hide NormalizeGroups, NormalizeIds, ResolveGroupId, SyncGroups, EnsureLabels, NormalizeTexts, KeepOpen, NormalizeRunning;
  }

  /** A state of the invariant is its own normal form, and a candidate. */
  lemma InvariantIsCandidate(s: State)
    requires RunInv(s)
    ensures Renormalize(s) == s && Candidate(s)
  {
    hide Terminals, Renormalize, Normal, AllFit, ActiveShown;
    SettledFixed(s);
    var valid := ToSet(s.terminalIds);
    forall i | 0 <= i < |s.groups|
      ensures TidyGroup(s.groups[i], valid)
    {
      SettledIsFixed(s.groups[i], valid);
    }
    RunningIsClean(s.running, s.terminalIds);
    hide TidyGroup, Covered, Separate, NoDup, AllClean, GroupOk;
  }

  lemma RunningIsClean(running: seq<string>, ids: seq<string>)
    requires AllClean(ids) && Subset(ToSet(running), ids)
    ensures AllClean(running)
  {
    forall i | 0 <= i < |running|
      ensures Clean(running[i])
    {
      assert running[i] in ToSet(running);
      var k :| 0 <= k < |ids| && ids[k] == running[i];
    }
  }

  lemma {:induction false} NoDupMultiset(s: seq<string>)
    ensures NoDup(s) <==> forall x :: multiset(s)[x] <= 1
  {
    if s != [] {
      var front, last := s[..|s| - 1], s[|s| - 1];
      assert s == front + [last];
      NoDupMultiset(front);
      NoDupConcat(front, [last]);
      assert multiset(s) == multiset(front) + multiset{last};
      assert last in front <==> multiset(front)[last] > 0;
      assert forall x :: multiset(s)[x] == multiset(front)[x] + if x == last then 1 else 0;
      if forall x :: multiset(s)[x] <= 1 {
        assert multiset(s)[last] <= 1;
        forall x
          ensures multiset(front)[x] <= 1
        {
          assert multiset(front)[x] <= multiset(s)[x];
        }
      }
    }
  }

  /** One more of a new id: distinct stays distinct, and the set and the length grow by one. */
  lemma OneMore(s: seq<string>, t: seq<string>, id: string)
    requires NoDup(s) && id !in s && multiset(t) == multiset(s) + multiset{id}
    ensures NoDup(t) && ToSet(t) == ToSet(s) + {id} && |t| == |s| + 1
  {
    NoDupMultiset(s);
    NoDupMultiset(t);
    assert |multiset(t)| == |t| && |multiset(s)| == |s|;
    forall x
      ensures x in t <==> x in s || x == id
    {
      assert x in t <==> x in multiset(t);
      assert x in s <==> x in multiset(s);
    }
  }

  // ----- opening -----

  predicate Fresh(s: State, id: string) {
    Clean(id) && id !in s.terminalIds
  }

  lemma GroupsGrow(gs: seq<Group>, valid: set<string>, more: set<string>)
    requires AllOk(gs, valid) && valid <= more
    ensures AllOk(gs, more)
  {
    forall i | 0 <= i < |gs|
      ensures GroupOk(gs[i], more)
    {
      NormalMonotone(gs[i].layout, valid, more);
    }
  }

  lemma IdsGrow(ids: seq<string>, id: string)
    requires IdsOk(ids) && Clean(id) && id !in ids
    ensures IdsOk(ids + [id]) && ToSet(ids + [id]) == ToSet(ids) + {id}
  {
    NoDupConcat(ids, [id]);
  }

  lemma ShownIsOpen(s: State, i: nat)
    requires RunInv(s) && i < |s.groups|
    ensures forall t <- Shown(s.groups[i]) :: t in s.terminalIds
  {
    forall t | t in Shown(s.groups[i])
      ensures t in s.terminalIds
    {
      assert t in Covered(s.groups);
    }
  }

  /** The state a successful opening hands to the normaliser. */
  function Opened(s: State, id: string, groups: seq<Group>, groupId: string): State {
    s.(view := s.view.(open := true), terminalIds := s.terminalIds + [id], activeTerminalId := id,
       groups := groups, activeGroupId := groupId)
  }

  lemma OpenedNormalizes(s: State, id: string, groups: seq<Group>, groupId: string)
    requires RunInv(s) && Fresh(s, id)
    requires groups != [] && Separate(groups) && Covered(groups) == ToSet(s.terminalIds) + {id}
    requires AllOk(groups, ToSet(s.terminalIds) + {id}) && AllFit(groups)
    requires ActiveShown(groups, groupId, id)
    ensures var r := Renormalize(Opened(s, id, groups, groupId));
            && RunInv(r) && r.terminalIds == s.terminalIds + [id] && r.activeTerminalId == id
            && r.activeGroupId == groupId && Faces(r.groups) == Faces(groups)
  {
    InvariantIsCandidate(s);
    IdsGrow(s.terminalIds, id);
    var c := Opened(s, id, groups, groupId);
    forall i | 0 <= i < |groups|
      ensures TidyGroup(groups[i], ToSet(c.terminalIds))
    {
      SettledIsFixed(groups[i], ToSet(c.terminalIds));
    }
    hide AllOk, Terminals, Covered, TidyGroup, Separate, AllFit, IdsOk;
    CandidateNormalizes(c);
  }

  /** A group replaced by one that also shows the new terminal. */
  lemma GrownGroup(gs: seq<Group>, k: nat, g: Group, ids: set<string>, id: string)
    requires Partition(gs, ids) && AllFit(gs) && k < |gs| && id !in ids
    requires g.id == gs[k].id && GroupOk(g, ids + {id}) && Fits(g)
    requires ToSet(Shown(g)) == ToSet(Shown(gs[k])) + {id}
    ensures var hs := gs[k := g];
            && Separate(hs) && Covered(hs) == ids + {id} && AllOk(hs, ids + {id}) && AllFit(hs)
            && ActiveShown(hs, g.id, id)
  {
    var hs := gs[k := g];
    GroupsGrow(gs, ids, ids + {id});
    assert hs[k] == g && id in ToSet(Shown(g));
    GrownApart(gs, k, g, id);
    GrownCover(gs, k, g, id);
  }

  lemma GrownApart(gs: seq<Group>, k: nat, g: Group, id: string)
    requires Separate(gs) && k < |gs| && id !in Covered(gs) && g.id == gs[k].id
    requires ToSet(Shown(g)) == ToSet(Shown(gs[k])) + {id}
    ensures Separate(gs[k := g])
  {
    hide Terminals;
    assert forall x :: x in Shown(g) <==> x in ToSet(Shown(g));
    assert forall i, x :: 0 <= i < |gs| && x in Shown(gs[i]) ==> x in Covered(gs);
    var hs := gs[k := g];
    forall i, j | 0 <= i < j < |hs|
      ensures Apart(hs[i], hs[j])
    {
      assert Apart(gs[i], gs[j]);
    }
  }

  lemma GrownCover(gs: seq<Group>, k: nat, g: Group, id: string)
    requires k < |gs| && ToSet(Shown(g)) == ToSet(Shown(gs[k])) + {id}
    ensures Covered(gs[k := g]) == Covered(gs) + {id}
  {
    hide Terminals;
    var hs := gs[k := g];
    assert forall x :: x in Shown(g) <==> x in ToSet(Shown(g));
    forall x | x in Covered(gs) + {id}
      ensures x in Covered(hs)
    {
      if x == id {
        assert x in Shown(hs[k]);
      } else {
        var i :| 0 <= i < |gs| && x in Shown(gs[i]);
        assert x in Shown(hs[i]);
      }
    }
    forall x | x in Covered(hs)
      ensures x in Covered(gs) + {id}
    {
      var i :| 0 <= i < |hs| && x in Shown(hs[i]);
      if i == k {
        assert x == id || x in Shown(gs[k]);
      } else {
        assert x in Shown(gs[i]);
      }
    }
  }

  lemma Parts(s: State)
    requires RunInv(s)
    ensures Renormalize(s) == s
    ensures Partition(s.groups, ToSet(s.terminalIds)) && AllFit(s.groups)
    ensures forall i :: 0 <= i < |s.groups| ==> GroupOk(s.groups[i], ToSet(s.terminalIds)) && Fits(s.groups[i])
    ensures Covered(s.groups) == ToSet(s.terminalIds) && Separate(s.groups) && AllOk(s.groups, ToSet(s.terminalIds))
  {
    InvariantIsCandidate(s);
  }

  lemma FreshIsNowhere(s: State, id: string)
    requires RunInv(s) && id !in s.terminalIds
    ensures FirstShowing(s.groups, id) == |s.groups| && WithoutTerminal(s, id) == s.groups
  {
    var e := FirstShowing(s.groups, id);
    if e < |s.groups| {
      ShownIsOpen(s, e);
    }
  }

  lemma OpenAloneKeeps(s: State, id: string)
    requires RunInv(s) && Fresh(s, id)
    ensures var r := OpenAlone(s, id);
            && RunInv(r) && r.terminalIds == s.terminalIds + [id] && r.activeTerminalId == id
            && Faces(r.groups) == Faces(s.groups) + [Face(r.activeGroupId, [id])]
  {
    hide RunInv, Partition, AllFit, Terminals, GroupOk, Covered, Separate, AllOk, Renormalize, Trim, UniqueGroupId;
    Parts(s);
    FreshIsNowhere(s, id);
    TrimIsTrimmed(id);
    var ids := ToSet(s.terminalIds);
    PrefixIsClean("group-", id);
    var groupId := UniqueGroupId(FallbackGroupId(id), GroupIds(s.groups));
    var g := NewGroup(groupId, id);
    var groups := s.groups + [g];
    NewGroupOk(groupId, id, ids + {id});
    AppendedGroup(s.groups, g, ids, id);
    OpenedNormalizes(s, id, groups, groupId);
    assert Faces(groups) == Faces(s.groups) + [Face(groupId, [id])];
  }

  /** A group of its own for the new terminal. */
  lemma AppendedGroup(gs: seq<Group>, g: Group, ids: set<string>, id: string)
    requires Partition(gs, ids) && AllFit(gs) && id !in ids
    requires GroupOk(g, ids + {id}) && g.id !in GroupIds(gs) && Shown(g) == [id]
    ensures var hs := gs + [g];
            && Separate(hs) && Covered(hs) == ids + {id} && AllOk(hs, ids + {id}) && AllFit(hs)
            && ActiveShown(hs, g.id, id)
  {
    GroupsGrow(gs, ids, ids + {id});
    CoveredSnoc(gs, g);
    RepairSnoc(Repair(gs, ids, GroupIds(gs)), g, ids + {id});
    assert ToSet([id]) == {id};
    assert (gs + [g])[|gs|] == g && Fits(g);
  }

  lemma FirstShowingIs(gs: seq<Group>, i: nat, id: string)
    requires i < |gs| && id in Shown(gs[i]) && forall k :: 0 <= k < i ==> id !in Shown(gs[k])
    ensures FirstShowing(gs, id) == i
  {
  }

  lemma GroupIndexIs(gs: seq<Group>, i: nat)
    requires i < |gs| && forall k :: 0 <= k < i ==> gs[k].id != gs[i].id
    ensures GroupIndex(gs, gs[i].id) == i
  {
  }

  lemma ActiveIndex(s: State)
    requires RunInv(s)
    ensures var a := GroupIndex(s.groups, s.activeGroupId);
            a < |s.groups| && s.activeTerminalId in Shown(s.groups[a]) && FirstShowing(s.groups, s.activeTerminalId) == a
  {
    var i: nat :| i < |s.groups| && s.groups[i].id == s.activeGroupId && s.activeTerminalId in Shown(s.groups[i]);
    hide *;
    Parts(s);
    forall k | 0 <= k < i
      ensures s.groups[k].id != s.groups[i].id && s.activeTerminalId !in Shown(s.groups[k])
    {
      IdsDiffer(s.groups, k, i);
    }
    FirstShowingIs(s.groups, i, s.activeTerminalId);
    GroupIndexIs(s.groups, i);
  }

  lemma OpenBesideKeeps(s: State, id: string, position: Position)
    requires RunInv(s) && Fresh(s, id)
    ensures var r := OpenBeside(s, id, position);
            var a := GroupIndex(s.groups, s.activeGroupId);
            && RunInv(r)
            && a < |s.groups|
            && (|Shown(s.groups[a])| >= MAX_TERMINALS_PER_GROUP ==> r == s)
            && (|Shown(s.groups[a])| < MAX_TERMINALS_PER_GROUP ==>
                  && r.terminalIds == s.terminalIds + [id] && r.activeTerminalId == id && r.activeGroupId == s.activeGroupId
                  && Faces(r.groups) == Faces(s.groups[a := SplitGroup(s.groups[a], Request(s.activeTerminalId, id, position, "split-" + id))]))
  {
    hide RunInv, Partition, AllFit, Terminals, GroupOk, Covered, Separate, AllOk, Renormalize, Trim;
    Parts(s);
    FreshIsNowhere(s, id);
    ActiveIndex(s);
    TrimIsTrimmed(id);
    var a := GroupIndex(s.groups, s.activeGroupId);
    ShownIsOpen(s, a);
    var target := s.groups[a];
    if |Shown(target)| < MAX_TERMINALS_PER_GROUP {
      var q := Request(s.activeTerminalId, id, position, "split-" + id);
      var ids := ToSet(s.terminalIds);
      SplitGroupOk(target, q, ids);
      GrownGroup(s.groups, a, SplitGroup(target, q), ids, id);
      OpenedNormalizes(s, id, s.groups[a := SplitGroup(target, q)], target.id);
    }
  }

  lemma SplitGroupOk(g: Group, q: Request, valid: set<string>)
    requires GroupOk(g, valid) && NoDup(Shown(g)) && q.target in Shown(g) && Clean(q.newId) && q.newId !in Shown(g)
    ensures var r := SplitGroup(g, q);
            && r.id == g.id && GroupOk(r, valid + {q.newId}) && NoDup(Shown(r))
            && ToSet(Shown(r)) == ToSet(Shown(g)) + {q.newId} && |Shown(r)| == |Shown(g)| + 1
  {
    SplitHappens(g.layout, q, valid);
    SplitIsNormal(g.layout, q, valid);
    SplitAddsTerminal(g.layout, q, valid);
    OneMore(Shown(g), Shown(SplitGroup(g, q)), q.newId);
    assert q.newId in ToSet(Shown(SplitGroup(g, q)));
  }

  lemma TabGroupOk(g: Group, target: string, newId: string, valid: set<string>)
    requires GroupOk(g, valid) && NoDup(Shown(g)) && target in Shown(g) && Clean(newId) && newId !in Shown(g)
    ensures var r := AddTabToGroup(g, target, newId);
            && r.id == g.id && GroupOk(r, valid + {newId}) && NoDup(Shown(r))
            && ToSet(Shown(r)) == ToSet(Shown(g)) + {newId} && |Shown(r)| == |Shown(g)| + 1
  {
    UpdateFinds(g.layout, target, AddTab(newId), valid);
    AddTabKeeps(g.layout, target, newId, valid);
    OneMore(Shown(g), Shown(AddTabToGroup(g, target, newId)), newId);
    assert newId in ToSet(Shown(AddTabToGroup(g, target, newId)));
  }

  lemma OpenIsShown(s: State, id: string)
    requires RunInv(s) && id in s.terminalIds
    ensures FirstShowing(s.groups, id) < |s.groups|
  {
    assert id in Covered(s.groups);
  }

  lemma OpenTabIs(s: State, target: string, id: string)
    requires Renormalize(s) == s && Fresh(s, id) && FirstShowing(s.groups, target) < |s.groups|
    ensures var b := FirstShowing(s.groups, target);
            OpenTab(s, target, id) ==
            if |Shown(s.groups[b])| >= MAX_TERMINALS_PER_GROUP then s
            else Renormalize(Opened(s, id, s.groups[b := AddTabToGroup(s.groups[b], target, id)], s.groups[b].id))
  {
    hide Renormalize, Terminals, FirstShowing, AddTabToGroup, Trim;
    TrimIsTrimmed(id);
  }

  lemma GroupAt(s: State, i: nat)
    requires RunInv(s) && i < |s.groups|
    ensures GroupOk(s.groups[i], ToSet(s.terminalIds)) && NoDup(Shown(s.groups[i]))
  {
    hide GroupOk, Terminals, RunInv, NoDup;
    Parts(s);
  }

  lemma FreshIsClean(s: State, id: string)
    requires Fresh(s, id)
    ensures Clean(id) && id !in s.terminalIds && id !in ToSet(s.terminalIds)
  {
  }

  lemma FitsIs(g: Group)
    requires NoDup(Shown(g)) && |Shown(g)| <= MAX_TERMINALS_PER_GROUP
    ensures Fits(g)
  {
  }

  lemma OpenTabKeeps(s: State, target: string, id: string)
    requires RunInv(s) && Fresh(s, id) && target in s.terminalIds
    ensures var r := OpenTab(s, target, id);
            var b := FirstShowing(s.groups, target);
            && RunInv(r)
            && b < |s.groups|
            && (|Shown(s.groups[b])| >= MAX_TERMINALS_PER_GROUP ==> r == s)
            && (|Shown(s.groups[b])| < MAX_TERMINALS_PER_GROUP ==>
                  && r.terminalIds == s.terminalIds + [id] && r.activeTerminalId == id
                  && Faces(r.groups) == Faces(s.groups[b := AddTabToGroup(s.groups[b], target, id)]))
  {
    hide *;
    OpenIsShown(s, target);
    Parts(s);
    var b := FirstShowing(s.groups, target);
    ShownIsOpen(s, b);
    OpenTabIs(s, target, id);
    if |Shown(s.groups[b])| < MAX_TERMINALS_PER_GROUP {
      var ids := ToSet(s.terminalIds);
      var g := AddTabToGroup(s.groups[b], target, id);
      GroupAt(s, b);
      FreshIsClean(s, id);
      TabGroupOk(s.groups[b], target, id, ids);
      FitsIs(g);
      GrownGroup(s.groups, b, g, ids, id);
      OpenedNormalizes(s, id, s.groups[b := g], s.groups[b].id);
    }
  }

  lemma OpenFullWidthKeeps(s: State, id: string)
    requires RunInv(s) && Fresh(s, id)
    ensures RunInv(OpenFullWidth(s, id)) && OpenFullWidth(s, id).terminalIds == s.terminalIds + [id]
  {
    OpenAloneKeeps(s, id);
    var n := OpenAlone(s, id);
    InvariantIsCandidate(n);
    CandidateNormalizes(n.(view := n.view.(open := true, presentation := Workspace, layout := TerminalOnly, tab := TerminalTab),
                           activeTerminalId := id));
  }

  // ----- choosing, resizing, records -----

  lemma FaceAt(gs: seq<Group>, hs: seq<Group>, i: nat)
    requires Faces(gs) == Faces(hs) && i < |gs|
    ensures i < |hs| && hs[i].id == gs[i].id && Shown(hs[i]) == Shown(gs[i])
  {
    hide Terminals;
    assert Faces(gs)[i] == Faces(hs)[i];
  }

  lemma ChooseKeeps(s: State, id: string)
    requires RunInv(s)
    ensures var r := Choose(s, id);
            && RunInv(r) && r.terminalIds == s.terminalIds && Faces(r.groups) == Faces(s.groups)
            && (id in s.terminalIds ==> r.activeTerminalId == id)
  {
    hide RunInv, Renormalize, Terminals, ActivateGroups, FirstShowing, Faces, Partition;
    Parts(s);
    if id in s.terminalIds {
      OpenIsShown(s, id);
      var i := FirstShowing(s.groups, id);
      var gs := ActivateGroups(s.groups, s.groups[i].id, id);
      ActivatedGroups(s, i, id);
      FaceAt(s.groups, gs, i);
      ChosenIsSettled(s, Choose(s, id), gs, i);
    }
  }

  /** Activating in the one group that shows the terminal changes which tab is visible and nothing else. */
  lemma ActivatedGroups(s: State, i: nat, id: string)
    requires RunInv(s) && i < |s.groups| && id in Shown(s.groups[i])
    ensures var gs := ActivateGroups(s.groups, s.groups[i].id, id);
            && Partition(gs, ToSet(s.terminalIds)) && Faces(gs) == Faces(s.groups)
            && gs[i].activeTerminalId == id
  {
    hide RunInv, AllFit, Terminals, Covered, AllOk, Renormalize;
    Parts(s);
    var gs := ActivateGroups(s.groups, s.groups[i].id, id);
    var valid := ToSet(s.terminalIds);
    forall k | 0 <= k < |gs|
      ensures GroupOk(gs[k], valid) && Shown(gs[k]) == Shown(s.groups[k]) && gs[k].id == s.groups[k].id
    {
      assert k < i ==> Apart(s.groups[k], s.groups[i]);
      assert i < k ==> Apart(s.groups[i], s.groups[k]);
      if k == i {
        ActivateInGroupOk(s.groups[i], id, valid);
      }
    }
    ActivateInGroupOk(s.groups[i], id, valid);
    SameShownPartition(s.groups, gs, valid);
    assert Faces(gs) == Faces(s.groups);
  }

  lemma ChosenIsSettled(s: State, r: State, gs: seq<Group>, i: nat)
    requires RunInv(s) && i < |gs|
    requires Partition(gs, ToSet(s.terminalIds)) && Faces(gs) == Faces(s.groups)
    requires r == s.(activeTerminalId := gs[i].activeTerminalId, groups := gs, activeGroupId := gs[i].id,
                     attention := ClearReview(s.attention, gs[i].activeTerminalId))
    requires gs[i].activeTerminalId in Shown(gs[i]) && gs[i].activeTerminalId in s.terminalIds
    ensures RunInv(r)
  {
    hide Partition, Terminals, AllFit;
    SameFacesFit(s.groups, gs);
    PartitionSeparates(gs, ToSet(s.terminalIds));
    forall k | 0 <= k < |gs| && k != i
      ensures gs[k].id != gs[i].id
    {
      IdsDiffer(gs, i, k);
    }
    assert gs[i].id in GroupIds(gs);
    assert ActiveShown(gs, gs[i].id, gs[i].activeTerminalId);
  }

  lemma IdsDiffer(gs: seq<Group>, i: nat, k: nat)
    requires Separate(gs) && i < |gs| && k < |gs| && i != k
    ensures gs[i].id != gs[k].id && forall t <- Shown(gs[i]) :: t !in Shown(gs[k])
  {
    if i < k {
      assert Apart(gs[i], gs[k]);
    } else {
      assert Apart(gs[k], gs[i]);
    }
  }

  /** Changing only records, running marks and the view keeps the invariant when the records stay in order. */
  lemma RecordsChange(s: State, r: State)
    requires RunInv(s) && RecordsOk(r) && NoDup(r.running)
    requires r.terminalIds == s.terminalIds && r.groups == s.groups
    requires r.activeTerminalId == s.activeTerminalId && r.activeGroupId == s.activeGroupId
    ensures RunInv(r)
  {
  }

  lemma RunRecords(s: State)
    requires RunInv(s)
    ensures RecordsOk(s) && NoDup(s.running) && IdsOk(s.terminalIds)
  {
  }

  lemma PartitionSeparates(gs: seq<Group>, valid: set<string>)
    requires Partition(gs, valid)
    ensures Separate(gs)
  {
  }

  lemma ResizeRuns(s: State, groupId: string, splitId: string, weights: seq<real>)
    requires RunInv(s)
    ensures var r := Resize(s, groupId, splitId, weights);
            && RunInv(r) && r.terminalIds == s.terminalIds && Faces(r.groups) == Faces(s.groups)
            && r.activeTerminalId == s.activeTerminalId && r.activeGroupId == s.activeGroupId
  {
    hide RunInv, Partition, AllFit, Terminals, GroupOk, Covered, Separate, AllOk, Renormalize, Candidate;
    Parts(s);
    InvariantIsCandidate(s);
    var i := GroupIndex(s.groups, groupId);
    if i < |s.groups| {
      var layout := ResizeNode(s.groups[i].layout, splitId, weights).0;
      ResizedCandidate(s, i, layout) by {
        GroupLayoutNormal(s, i);
        ResizeKeeps(s.groups[i].layout, splitId, weights, ToSet(s.terminalIds));
      }
      CandidateNormalizes(s.(groups := s.groups[i := s.groups[i].(layout := layout)]));
    }
  }

  lemma GroupLayoutNormal(s: State, i: nat)
    requires RunInv(s) && i < |s.groups|
    ensures Normal(s.groups[i].layout, ToSet(s.terminalIds))
  {
    Parts(s);
  }

  lemma ResizedCandidate(s: State, i: nat, layout: Node)
    requires RunInv(s) && i < |s.groups|
    requires Normal(layout, ToSet(s.terminalIds)) && Terminals(layout) == Shown(s.groups[i])
    ensures var gs := s.groups[i := s.groups[i].(layout := layout)];
            Candidate(s.(groups := gs)) && Faces(gs) == Faces(s.groups)
  {
    hide RunInv, Terminals, Normal, Candidate;
    var gs := s.groups[i := s.groups[i].(layout := layout)];
    LayoutFaces(s.groups, i, layout);
    InvariantIsCandidate(s);
    RelaidGroup(s.groups[i], layout, ToSet(s.terminalIds)) by {
      Parts(s);
    }
    CandidateGroups(s);
    hide TidyGroup;
    SwapGroups(s, gs);
  }

  lemma RelaidGroup(g: Group, layout: Node, valid: set<string>)
    requires GroupOk(g, valid) && Normal(layout, valid) && Terminals(layout) == Shown(g)
    ensures TidyGroup(g.(layout := layout), valid)
  {
    NormalIsTidy(layout, valid);
  }

  lemma CandidateGroups(c: State)
    requires Candidate(c)
    ensures forall i :: 0 <= i < |c.groups| ==> TidyGroup(c.groups[i], ToSet(c.terminalIds))
  {
  }

  /** Groups with the same ids and terminals are as good a candidate. */
  lemma SwapGroups(c: State, gs: seq<Group>)
    requires Candidate(c) && Faces(gs) == Faces(c.groups)
    requires forall i :: 0 <= i < |gs| ==> TidyGroup(gs[i], ToSet(c.terminalIds))
    ensures Candidate(c.(groups := gs))
  {
    hide Terminals, Covered, AllFit, ActiveShown, TidyGroup, Separate, Faces, IdsOk, NoDup, AllClean;
    SameFacesFit(c.groups, gs);
    SameFacesApart(c.groups, gs);
    assert |Faces(gs)| == |gs| && |Faces(c.groups)| == |c.groups|;
  }

  lemma LayoutFaces(gs: seq<Group>, i: nat, layout: Node)
    requires i < |gs| && Terminals(layout) == Shown(gs[i])
    ensures Faces(gs[i := gs[i].(layout := layout)]) == Faces(gs)
  {
    hide Terminals;
  }

  lemma SameFacesApart(gs: seq<Group>, hs: seq<Group>)
    requires Faces(gs) == Faces(hs) && Separate(gs)
    ensures Separate(hs)
  {
    hide Terminals;
    assert |gs| == |hs|;
    forall j, k | 0 <= j < k < |hs|
      ensures Apart(hs[j], hs[k])
    {
      assert Apart(gs[j], gs[k]);
      assert Faces(gs)[j] == Faces(hs)[j] && Faces(gs)[k] == Faces(hs)[k];
    }
  }

  lemma ReportKeeps(s: State, id: string, isRunning: bool, state: Option<Attention>)
    requires RunInv(s)
    ensures var r := Report(s, id, isRunning, state);
            && RunInv(r) && r.groups == s.groups && r.terminalIds == s.terminalIds
            && (id in s.terminalIds ==> (id in r.running <==> isRunning) && Lookup(r.attention, id) == state)
            && (forall other :: other != id ==> (other in r.running <==> other in s.running))
            && (forall other :: other != id ==> Lookup(r.attention, other) == Lookup(s.attention, other))
            && r == s.(running := r.running, attention := r.attention)
  {
    hide RunInv, Partition, Renormalize, Terminals, Trim, Separate, Covered, AllOk, AllFit, GroupOk, Fits, TakenTitles, UniqueTitle, NoDup;
    Parts(s);
    RunRecords(s);
    WithoutNoDup(s.running, id);
    NoDupConcat(s.running, [id]);
    RecordsChange(s, Report(s, id, isRunning, state));
  }

  lemma SetOverrideKeeps(s: State, id: string, title: string)
    requires RunInv(s)
    ensures var r := SetOverride(s, id, title);
            && RunInv(r) && r.groups == s.groups && r.terminalIds == s.terminalIds
            && (id in s.terminalIds && Trim(title) != "" ==> DisplayTitle(id, r.labels, r.overrides) == Trim(title))
            && (id in s.terminalIds && Trim(title) == "" ==> id !in r.overrides)
            && (forall other :: other != id ==> Lookup(r.overrides, other) == Lookup(s.overrides, other))
            && r == s.(overrides := r.overrides)
  {
    hide RunInv, Partition, Renormalize, Terminals, Trim, Separate, Covered, AllOk, AllFit, GroupOk, Fits, NoDup;
    Parts(s);
    RunRecords(s);
    TrimIsTrimmed(title);
    TrimIsTrimmed(Trim(title));
    TrimIsTrimmed("");
    RecordsChange(s, SetOverride(s, id, title));
  }

  lemma KindRecords(s: State, id: string, kind: Option<CliKind>)
    requires Renormalize(s) == s && RecordsOk(s)
    ensures var r := SetKind(s, id, kind);
            && RecordsOk(r) && r == s.(labels := r.labels, cliKinds := r.cliKinds)
  {
    hide Renormalize, Trim, TakenTitles, UniqueTitle;
    if kind.Some? {
      TitleIsClean(TitleBase(kind), TakenTitles(id, s.labels, s.overrides));
    }
  }

  lemma KindTitle(s: State, id: string, kind: Option<CliKind>)
    requires Renormalize(s) == s && id in s.terminalIds && id !in s.overrides && kind.Some? && Lookup(s.cliKinds, id) != kind
    ensures var r := SetKind(s, id, kind);
            && r.labels == s.labels[id := UniqueTitle(TitleBase(kind), TakenTitles(id, s.labels, s.overrides))]
            && r.overrides == s.overrides
  {
    hide Renormalize, Trim, TakenTitles, UniqueTitle, TitleBase;
    TrimIsTrimmed("");
  }

  /** Naming a terminal after its tool gives it a title no other terminal shows. */
  lemma SetKindKeeps(s: State, id: string, kind: Option<CliKind>)
    requires RunInv(s)
    ensures var r := SetKind(s, id, kind);
            && RunInv(r) && r.groups == s.groups && r.terminalIds == s.terminalIds
            && (id in s.terminalIds && id !in s.overrides && kind.Some? && Lookup(s.cliKinds, id) != kind ==>
                  forall other <- s.terminalIds :: other != id ==>
                    DisplayTitle(other, r.labels, r.overrides) != DisplayTitle(id, r.labels, r.overrides))
  {
    hide *;
    Parts(s);
    RunRecords(s);
    KindRecords(s, id, kind);
    RecordsChange(s, SetKind(s, id, kind));
    if id in s.terminalIds && id !in s.overrides && kind.Some? && Lookup(s.cliKinds, id) != kind {
      KindTitle(s, id, kind);
      FreshTitle(s, id, kind);
    }
  }

  /** It changes that terminal's kind and label and nothing else. */
  lemma SetKindChanges(s: State, id: string, kind: Option<CliKind>)
    requires RunInv(s)
    ensures var r := SetKind(s, id, kind);
            && r == s.(labels := r.labels, cliKinds := r.cliKinds)
            && (id in s.terminalIds ==> Lookup(r.cliKinds, id) == kind)
            && (forall other :: other != id ==> Lookup(r.cliKinds, other) == Lookup(s.cliKinds, other))
            && (forall other :: other != id ==> Lookup(r.labels, other) == Lookup(s.labels, other))
  {
    hide RunInv, Renormalize, Trim, TakenTitles, UniqueTitle, TitleBase;
    Parts(s);
  }

  lemma FreshTitle(s: State, id: string, kind: Option<CliKind>)
    requires RecordsOk(s) && id !in s.overrides
    ensures var labels := s.labels[id := UniqueTitle(TitleBase(kind), TakenTitles(id, s.labels, s.overrides))];
            forall other <- s.terminalIds :: other != id ==>
              DisplayTitle(other, labels, s.overrides) != DisplayTitle(id, labels, s.overrides)
  {
    hide Trim, UniqueTitle;
    var taken := TakenTitles(id, s.labels, s.overrides);
    var title := UniqueTitle(TitleBase(kind), taken);
    var labels := s.labels[id := title];
    TitleIsClean(TitleBase(kind), taken);
    TrimIsTrimmed("");
    TrimIsTrimmed(title);
    assert title !in taken;
    forall other <- s.terminalIds | other != id
      ensures DisplayTitle(other, labels, s.overrides) != title
    {
      assert DisplayTitle(other, labels, s.overrides) == DisplayTitle(other, s.labels, s.overrides);
      assert other in s.labels;
    }
  }

  /** Metadata changes that terminal's kind and label and nothing else. */
  lemma SetMetadataChanges(s: State, id: string, kind: Option<CliKind>, text: string)
    requires RunInv(s)
    ensures var r := SetMetadata(s, id, kind, text);
            && r == s.(labels := r.labels, cliKinds := r.cliKinds)
            && (id in s.terminalIds ==> Lookup(r.cliKinds, id) == kind)
            && (forall other :: other != id ==> Lookup(r.cliKinds, other) == Lookup(s.cliKinds, other))
            && (forall other :: other != id ==> Lookup(r.labels, other) == Lookup(s.labels, other))
            && (id in s.overrides ==> r.labels == s.labels)
            && (id in s.terminalIds && id !in s.overrides && kind.None? && Trim(text) != "" ==> Lookup(r.labels, id) == Some(Trim(text)))
            && (kind.None? && Trim(text) == "" ==> r.labels == s.labels)
  {
    hide RunInv, Renormalize, Trim, TakenTitles, UniqueTitle, TitleBase;
    Parts(s);
    RunRecords(s);
    hide *;
    MetadataParts(s, id, kind, text);
  }

  lemma MetadataParts(s: State, id: string, kind: Option<CliKind>, text: string)
    requires Renormalize(s) == s && RecordsOk(s)
    ensures var r := SetMetadata(s, id, kind, text);
            && r == s.(labels := r.labels, cliKinds := r.cliKinds)
            && (id in s.terminalIds ==> Lookup(r.cliKinds, id) == kind)
            && (forall other :: other != id ==> Lookup(r.cliKinds, other) == Lookup(s.cliKinds, other))
            && (forall other :: other != id ==> Lookup(r.labels, other) == Lookup(s.labels, other))
            && (id in s.overrides ==> r.labels == s.labels)
            && (id in s.terminalIds && id !in s.overrides && kind.None? && Trim(text) != "" ==> Lookup(r.labels, id) == Some(Trim(text)))
            && (kind.None? && Trim(text) == "" ==> r.labels == s.labels)
  {
    hide Renormalize, Trim, TakenTitles, UniqueTitle, TitleBase;
    TrimIsTrimmed("");
    if id in s.overrides {
      TrimIsTrimmed(s.overrides[id]);
    }
  }

  /** Metadata keeps the invariant; a tool gives a terminal without an override a title no other shows. */
  lemma SetMetadataKeeps(s: State, id: string, kind: Option<CliKind>, text: string)
    requires RunInv(s)
    ensures var r := SetMetadata(s, id, kind, text);
            && RunInv(r)
            && (id in s.terminalIds && id !in s.overrides && kind.Some? ==>
                  forall other <- s.terminalIds :: other != id ==>
                    DisplayTitle(other, r.labels, r.overrides) != DisplayTitle(id, r.labels, r.overrides))
  {
    hide *;
    Parts(s);
    RunRecords(s);
    MetadataRecords(s, id, kind, text);
    MetadataParts(s, id, kind, text);
    RecordsChange(s, SetMetadata(s, id, kind, text));
    if id in s.terminalIds && id !in s.overrides && kind.Some? {
      MetadataTitle(s, id, kind, text);
      FreshTitle(s, id, kind);
    }
  }

  lemma MetadataRecords(s: State, id: string, kind: Option<CliKind>, text: string)
    requires Renormalize(s) == s && RecordsOk(s)
    ensures RecordsOk(SetMetadata(s, id, kind, text))
  {
    hide Renormalize, Trim, TakenTitles, UniqueTitle;
    TrimIsTrimmed(text);
    TitleIsClean(TitleBase(kind), TakenTitles(id, s.labels, s.overrides));
  }

  lemma MetadataTitle(s: State, id: string, kind: Option<CliKind>, text: string)
    requires Renormalize(s) == s && RecordsOk(s) && id in s.terminalIds && id !in s.overrides && kind.Some?
    ensures SetMetadata(s, id, kind, text).labels == s.labels[id := UniqueTitle(TitleBase(kind), TakenTitles(id, s.labels, s.overrides))]
    ensures SetMetadata(s, id, kind, text).overrides == s.overrides
  {
    hide Renormalize, Trim, TakenTitles, UniqueTitle, TitleBase;
    TrimIsTrimmed("");
  }

  // ----- the page -----

  /** A page setter changes the view, and may mark the active terminal as seen; nothing else moves. */
  lemma LookKeeps(s: State, e: ViewEdit)
    requires RunInv(s)
    ensures var r := Look(s, e);
            && RunInv(r) && r == s.(view := EditView(s.view, e), attention := r.attention)
            && forall other :: other != s.activeTerminalId ==> Lookup(r.attention, other) == Lookup(s.attention, other)
  {
    hide RunInv, Renormalize;
    Parts(s);
    RunRecords(s);
    hide Look;
    LookRecords(s, e);
    ViewChange(s, Look(s, e));
  }

  lemma LookRecords(s: State, e: ViewEdit)
    requires Renormalize(s) == s && RecordsOk(s)
    ensures var r := Look(s, e);
            && RecordsOk(r) && r == s.(view := EditView(s.view, e), attention := r.attention)
            && forall other :: other != s.activeTerminalId ==> Lookup(r.attention, other) == Lookup(s.attention, other)
  {
    hide Renormalize, OpenTexts;
  }

  lemma ViewChange(s: State, r: State)
    requires RunInv(s) && RecordsOk(r) && r == s.(view := r.view, attention := r.attention)
    ensures RunInv(r)
  {
    RunRecords(s);
    RecordsChange(s, r);
  }

  /** Every page setter does in one call what it does in two. */
  lemma EditViewTwice(v: View, e: ViewEdit)
    ensures EditView(EditView(v, e), e) == EditView(v, e)
  {
  }
}
