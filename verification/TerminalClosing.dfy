/** Closing terminals and groups, and the invariant of every run. */
module TerminalClosing {
  import opened Strings
  import opened Sequences
  import opened PaneTree
  import opened PaneNormal
  import opened PaneClose
  import opened TerminalGroups
  import opened TerminalGroupsStable
  import opened TerminalState
  import opened TerminalActions
  import opened TerminalRuns

  // ----- one group -----

  lemma AdjacentIsOther(node: Node, id: string)
    requires NoDup(Terminals(node))
    ensures var a := Adjacent(node, id); a.Some? ==> a.value in Terminals(node) && a.value != id
  {
  }

  /** Closing in one group removes the terminal from it; only a group that showed nothing else goes. */
  lemma RemoveFromGroupOk(g: Group, id: string, valid: set<string>)
    requires GroupOk(g, valid) && NoDup(Shown(g))
    ensures var r := RemoveFromGroup(g, id);
            && (r.Some? <==> Without(Shown(g), id) != [])
            && (r.Some? ==> r.value.id == g.id && Shown(r.value) == Without(Shown(g), id)
                            && TidyGroup(r.value, valid - {id}))
  {
    hide PaneIds, CleanIds, Adjacent, RemoveNode;
    NormalIsTidy(g.layout, valid);
    TidyTerminals(g.layout, valid);
    RemoveDropsTerminal(g.layout, id, valid);
    AdjacentIsOther(g.layout, id);
    var node := RemoveNode(g.layout, id).node;
    if node.Some? {
      TidyTerminals(node.value, valid - {id});
    }
  }

  // ----- all groups -----

  function CloseFaces(fs: seq<Face>, id: string): seq<Face> {
    if fs == [] then []
    else
      var left := Without(fs[0].shown, id);
      (if left == [] then [] else [Face(fs[0].id, left)]) + CloseFaces(fs[1..], id)
  }

  predicate AllTidy(gs: seq<Group>, valid: set<string>) {
    forall i :: 0 <= i < |gs| ==> TidyGroup(gs[i], valid)
  }

  lemma NoGroupsToClose(gs: seq<Group>, id: string, valid: set<string>)
    requires gs == []
    ensures CloseIn(gs, id) == [] && Faces(gs) == [] && CloseFaces([], id) == [] && AllTidy([], valid) && AllFit([])
  {
  }

  lemma GroupsUncons(gs: seq<Group>, valid: set<string>)
    requires gs != [] && AllOk(gs, valid) && AllFit(gs)
    ensures AllOk(gs[1..], valid) && AllFit(gs[1..]) && GroupOk(gs[0], valid) && Fits(gs[0]) && NoDup(Shown(gs[0]))
  {
    hide GroupOk, Terminals, NoDup;
  }

  lemma CloseInUncons(gs: seq<Group>, id: string)
    requires gs != []
    ensures var first := RemoveFromGroup(gs[0], id);
            CloseIn(gs, id) == (if first.Some? then [first.value] else []) + CloseIn(gs[1..], id)
  {
    hide RemoveFromGroup;
  }

  lemma FacesUncons(gs: seq<Group>)
    requires gs != []
    ensures Faces(gs) == [Face(gs[0].id, Shown(gs[0]))] + Faces(gs[1..])
  {
    hide Terminals;
  }

  lemma CloseFacesUncons(fs: seq<Face>, id: string)
    requires fs != []
    ensures var left := Without(fs[0].shown, id);
            CloseFaces(fs, id) == (if left == [] then [] else [Face(fs[0].id, left)]) + CloseFaces(fs[1..], id)
  {
    hide Without;
  }

  lemma FitsWithout(g: Group, r: Group, id: string)
    requires Fits(g) && NoDup(Shown(g)) && Shown(r) == Without(Shown(g), id)
    ensures Fits(r)
  {
    hide Terminals;
    WithoutNoDup(Shown(g), id);
  }

  lemma ConsGroup(g: Group, rest: seq<Group>, valid: set<string>)
    requires TidyGroup(g, valid) && AllTidy(rest, valid) && Fits(g) && AllFit(rest)
    ensures AllTidy([g] + rest, valid) && AllFit([g] + rest) && Faces([g] + rest) == [Face(g.id, Shown(g))] + Faces(rest)
  {
    hide TidyGroup, Fits, Terminals;
  }

  lemma {:induction false} CloseInFaces(gs: seq<Group>, id: string, valid: set<string>)
    requires AllOk(gs, valid) && AllFit(gs)
    ensures var r := CloseIn(gs, id);
            Faces(r) == CloseFaces(Faces(gs), id) && AllTidy(r, valid - {id}) && AllFit(r)
  {
    hide *;
    if gs == [] {
      NoGroupsToClose(gs, id, valid - {id});
    } else {
      var rest := gs[1..];
      GroupsUncons(gs, valid);
      CloseInFaces(rest, id, valid);
      RemoveFromGroupOk(gs[0], id, valid);
      CloseInUncons(gs, id);
      FacesUncons(gs);
      CloseFacesUncons(Faces(gs), id);
      var first := RemoveFromGroup(gs[0], id);
      if first.Some? {
        FitsWithout(gs[0], first.value, id);
        ConsGroup(first.value, CloseIn(rest, id), valid - {id});
      } else {
        assert [] + CloseIn(rest, id) == CloseIn(rest, id) && [] + CloseFaces(Faces(rest), id) == CloseFaces(Faces(rest), id);
      }
    }
  }

  predicate Unlike(a: Face, b: Face) {
    a.id != b.id && forall t <- a.shown :: t !in b.shown
  }

  predicate FacesApart(fs: seq<Face>) {
    forall i, j :: 0 <= i < j < |fs| ==> Unlike(fs[i], fs[j])
  }

  function FacesShow(fs: seq<Face>): set<string> {
    set i, t | 0 <= i < |fs| && t in fs[i].shown :: t
  }

  lemma FacesOfGroups(gs: seq<Group>)
    ensures FacesApart(Faces(gs)) <==> Separate(gs)
    ensures FacesShow(Faces(gs)) == Covered(gs)
  {
    hide Terminals;
    var fs := Faces(gs);
    if FacesApart(fs) {
      forall i, j | 0 <= i < j < |gs|
        ensures Apart(gs[i], gs[j])
      {
        assert Unlike(fs[i], fs[j]);
      }
    }
    if Separate(gs) {
      forall i, j | 0 <= i < j < |fs|
        ensures Unlike(fs[i], fs[j])
      {
        assert Apart(gs[i], gs[j]);
      }
    }
  }

  predicate Smaller(a: Face, b: Face) {
    a.id == b.id && forall t <- a.shown :: t in b.shown
  }

  predicate FromSome(a: Face, fs: seq<Face>) {
    exists k :: 0 <= k < |fs| && Smaller(a, fs[k])
  }

  predicate AllSmaller(rs: seq<Face>, fs: seq<Face>) {
    forall i :: 0 <= i < |rs| ==> FromSome(rs[i], fs)
  }

  /** A closed terminal is gone from everywhere; what else was shown still is, in the same groups. */
  lemma {:induction false} CloseFacesOk(fs: seq<Face>, id: string)
    requires FacesApart(fs)
    ensures var r := CloseFaces(fs, id);
            FacesApart(r) && FacesShow(r) == FacesShow(fs) - {id} && AllSmaller(r, fs)
  {
    if fs != [] {
      var rest := fs[1..];
      forall i, j | 0 <= i < j < |rest|
        ensures Unlike(rest[i], rest[j])
      {
        assert rest[i] == fs[i + 1] && rest[j] == fs[j + 1];
      }
      CloseFacesOk(rest, id);
      var tail := CloseFaces(rest, id);
      var left := Without(fs[0].shown, id);
      var head: seq<Face> := if left == [] then [] else [Face(fs[0].id, left)];
      assert fs == [fs[0]] + rest;
      ConsSmaller(fs[0], rest, head, tail);
      ConsApart(fs[0], rest, head, tail);
      ConsShow(fs[0], rest);
      if left == [] {
        assert head + tail == tail;
        assert ToSet(fs[0].shown) <= {id};
      } else {
        ConsShow(Face(fs[0].id, left), tail);
        assert ToSet(left) == ToSet(fs[0].shown) - {id};
      }
    }
  }

  lemma ConsShow(f: Face, rest: seq<Face>)
    ensures FacesShow([f] + rest) == ToSet(f.shown) + FacesShow(rest)
  {
    var fs := [f] + rest;
    forall t | t in ToSet(f.shown) + FacesShow(rest)
      ensures t in FacesShow(fs)
    {
      if t in f.shown {
        assert t in fs[0].shown;
      } else {
        var i :| 0 <= i < |rest| && t in rest[i].shown;
        assert t in fs[i + 1].shown;
      }
    }
  }

  lemma ConsSmaller(f: Face, rest: seq<Face>, head: seq<Face>, tail: seq<Face>)
    requires head == [] || (|head| == 1 && Smaller(head[0], f))
    requires AllSmaller(tail, rest)
    ensures AllSmaller(head + tail, [f] + rest)
  {
    var r, fs := head + tail, [f] + rest;
    forall i | 0 <= i < |r|
      ensures FromSome(r[i], fs)
    {
      if i < |head| {
        assert Smaller(r[i], fs[0]);
      } else {
        assert FromSome(tail[i - |head|], rest);
        var k :| 0 <= k < |rest| && Smaller(tail[i - |head|], rest[k]);
        assert Smaller(r[i], fs[k + 1]);
      }
    }
  }

  lemma ConsApart(f: Face, rest: seq<Face>, head: seq<Face>, tail: seq<Face>)
    requires FacesApart([f] + rest) && FacesApart(tail)
    requires head == [] || (|head| == 1 && Smaller(head[0], f))
    requires AllSmaller(tail, rest)
    ensures FacesApart(head + tail)
  {
    var r, fs := head + tail, [f] + rest;
    if |head| == 1 {
      forall i, j | 0 <= i < j < |r|
        ensures Unlike(r[i], r[j])
      {
        assert r[j] == tail[j - 1];
        if i == 0 {
          assert FromSome(tail[j - 1], rest);
          var k :| 0 <= k < |rest| && Smaller(tail[j - 1], rest[k]);
          assert fs[k + 1] == rest[k] && fs[0] == f;
          assert Unlike(fs[0], fs[k + 1]);
        } else {
          assert r[i] == tail[i - 1];
        }
      }
    } else {
      assert r == tail;
    }
  }

  // ----- closing a terminal -----

  lemma ClosedGroups(s: State, id: string)
    requires RunInv(s)
    ensures var gs := CloseIn(s.groups, id);
            && Faces(gs) == CloseFaces(Faces(s.groups), id) && Separate(gs) && AllFit(gs)
            && Covered(gs) == ToSet(s.terminalIds) - {id} == ToSet(Without(s.terminalIds, id))
            && AllTidy(gs, ToSet(Without(s.terminalIds, id)))
  {
    hide RunInv, Partition, AllFit, Terminals, GroupOk, Covered, Separate, AllOk, Renormalize, FacesShow, FacesApart, AllSmaller;
    Parts(s);
    CloseInFaces(s.groups, id, ToSet(s.terminalIds));
    FacesOfGroups(s.groups);
    FacesOfGroups(CloseIn(s.groups, id));
    CloseFacesOk(Faces(s.groups), id);
    assert ToSet(Without(s.terminalIds, id)) == ToSet(s.terminalIds) - {id};
  }

  lemma ShownAtIndex(gs: seq<Group>, x: string)
    requires x in Covered(gs)
    ensures FirstShowing(gs, x) < |gs| && ActiveShown(gs, gs[FirstShowing(gs, x)].id, x)
  {
  }

  /** The terminal a close makes active. */
  function NextActive(s: State, id: string): string
    requires id in s.terminalIds && Without(s.terminalIds, id) != []
  {
    var remaining := Without(s.terminalIds, id);
    var e := FirstShowing(s.groups, id);
    var sourceId := if e < |s.groups| then s.groups[e].id else s.activeGroupId;
    var groups := CloseIn(s.groups, id);
    var source := GroupIndex(groups, sourceId);
    if s.activeTerminalId != id then s.activeTerminalId
    else if source < |groups| then groups[source].activeTerminalId
    else remaining[Min(IndexOf(s.terminalIds, id), |remaining| - 1)]
  }

  lemma ActivesCovered(gs: seq<Group>, valid: set<string>)
    requires AllTidy(gs, valid)
    ensures forall i :: 0 <= i < |gs| ==> gs[i].activeTerminalId in Covered(gs)
  {
    hide Terminals, Tidy;
    forall i | 0 <= i < |gs|
      ensures gs[i].activeTerminalId in Covered(gs)
    {
      assert TidyGroup(gs[i], valid);
    }
  }

  lemma NextActiveRemains(s: State, id: string)
    requires RunInv(s) && id in s.terminalIds && Without(s.terminalIds, id) != []
    ensures NextActive(s, id) in Without(s.terminalIds, id)
  {
    RunRecords(s);
    assert s.activeTerminalId in s.terminalIds;
    hide RunInv, Terminals, CloseIn, Covered, AllTidy, AllFit, Separate, FirstShowing, GroupIndex, CloseFaces;
    ClosedGroups(s, id);
    ActivesCovered(CloseIn(s.groups, id), ToSet(Without(s.terminalIds, id)));
  }

  lemma CleanPart(s: seq<string>, t: seq<string>)
    requires AllClean(s) && forall x <- t :: x in s
    ensures AllClean(t)
  {
    forall i | 0 <= i < |t|
      ensures Clean(t[i])
    {
      assert t[i] in s;
      var k :| 0 <= k < |s| && s[k] == t[i];
    }
  }

  function Closed(s: State, id: string): State
    requires id in s.terminalIds && Without(s.terminalIds, id) != []
  {
    var groups := CloseIn(s.groups, id);
    var active := NextActive(s, id);
    var a := FirstShowing(groups, active);
    var groupId := if a < |groups| then groups[a].id
                   else if groups != [] then groups[0].id else FallbackGroupId(active);
    ThreadState(s.view, Without(s.terminalIds, id), s.labels - {id}, s.overrides - {id}, s.cliKinds - {id},
                s.attention - {id}, Without(s.running, id), active, groups, groupId)
  }

  lemma CloseIs(s: State, id: string)
    requires Renormalize(s) == s && id in s.terminalIds
    ensures Close(s, id) ==
            if Without(s.terminalIds, id) == [] then ClosedLast(s) else Renormalize(Closed(s, id))
  {
    hide Renormalize, CloseIn, Terminals;
  }

  lemma ClosedIsCandidate(s: State, id: string)
    requires RunInv(s) && id in s.terminalIds && Without(s.terminalIds, id) != []
    ensures Candidate(Closed(s, id))
  {
    hide RunInv, Terminals, CloseIn, AllFit, Covered, Separate, TidyGroup, NextActive, ActiveShown, CloseFaces, Renormalize,
         NoDup, AllClean, FirstShowing;
    var c := Closed(s, id);
    ClosedGroups(s, id);
    NextActiveRemains(s, id);
    ClosedIds(s, id);
    ShownAtIndex(c.groups, c.activeTerminalId);
    assert c.groups != [] by {
      assert FirstShowing(c.groups, c.activeTerminalId) < |c.groups|;
    }
  }

  lemma ClosedIds(s: State, id: string)
    requires RunInv(s) && Without(s.terminalIds, id) != []
    ensures IdsOk(Without(s.terminalIds, id))
    ensures NoDup(Without(s.running, id)) && AllClean(Without(s.running, id))
  {
    InvariantIsCandidate(s);
    WithoutNoDup(s.terminalIds, id);
    WithoutNoDup(s.running, id);
    CleanPart(s.terminalIds, Without(s.terminalIds, id));
    CleanPart(s.running, Without(s.running, id));
  }

  /** Closing a terminal that is not the last removes exactly it, from the list and from its pane. */
  lemma CloseKeeps(s: State, id: string)
    requires RunInv(s) && id in s.terminalIds && Without(s.terminalIds, id) != []
    ensures var r := Close(s, id);
            && RunInv(r) && r.terminalIds == Without(s.terminalIds, id) && r.view == s.view
            && Faces(r.groups) == CloseFaces(Faces(s.groups), id)
            && (s.activeTerminalId != id ==> r.activeTerminalId == s.activeTerminalId)
  {
    hide RunInv, Candidate, Renormalize, CloseIn, Terminals, CloseFaces;
    RunHeight(s);
    InvariantIsCandidate(s);
    ClosedIsCandidate(s, id);
    ClosedGroups(s, id);
    CloseIs(s, id);
    CandidateNormalizes(Closed(s, id));
  }

  lemma RunHeight(s: State)
    requires RunInv(s)
    ensures s.view.height > 0.0
  {
  }

  // ----- what becomes active -----

  lemma {:induction false} FaceStays(fs: seq<Face>, k: nat, id: string)
    requires k < |fs| && Without(fs[k].shown, id) != []
    ensures Face(fs[k].id, Without(fs[k].shown, id)) in CloseFaces(fs, id)
  {
    if k > 0 {
      FaceStays(fs[1..], k - 1, id);
    }
  }

  /** In separate groups, the first group with an id that shows a terminal is the first to show it. */
  lemma ShownBySource(gs: seq<Group>, groupId: string, valid: set<string>)
    requires Separate(gs) && AllTidy(gs, valid) && GroupIndex(gs, groupId) < |gs|
    ensures var i := GroupIndex(gs, groupId); FirstShowing(gs, gs[i].activeTerminalId) == i
  {
    var i := GroupIndex(gs, groupId);
    assert TidyGroup(gs[i], valid);
    hide *;
    TidyShowsActive(gs[i], valid);
    forall k | 0 <= k < i
      ensures gs[i].activeTerminalId !in Shown(gs[k])
    {
      IdsDiffer(gs, i, k);
    }
    FirstShowingIs(gs, i, gs[i].activeTerminalId);
  }

  lemma TidyShowsActive(g: Group, valid: set<string>)
    requires TidyGroup(g, valid)
    ensures g.activeTerminalId in Shown(g)
  {
  }

  lemma GroupWithFace(gs: seq<Group>, f: Face)
    requires f in Faces(gs)
    ensures GroupIndex(gs, f.id) < |gs|
  {
    hide Terminals;
    var i :| 0 <= i < |gs| && Faces(gs)[i] == f;
    assert gs[i].id == f.id;
  }

  /** Closing the active terminal of a group that shows another stays in that group. */
  lemma CloseActiveStays(s: State)
    requires RunInv(s)
    requires var a := GroupIndex(s.groups, s.activeGroupId);
             a < |s.groups| && Without(Shown(s.groups[a]), s.activeTerminalId) != []
    ensures Close(s, s.activeTerminalId).activeGroupId == s.activeGroupId
  {
    hide *;
    var id, a := s.activeTerminalId, GroupIndex(s.groups, s.activeGroupId);
    ActiveIndex(s);
    OthersRemain(s, a);
    FaceStays(Faces(s.groups), a, id);
    ClosedGroups(s, id);
    var gs := CloseIn(s.groups, id);
    GroupWithFace(gs, Face(s.activeGroupId, Without(Shown(s.groups[a]), id)));
    ShownBySource(gs, s.activeGroupId, ToSet(Without(s.terminalIds, id)));
    ClosedAt(s, a);
    InvariantIsCandidate(s);
    ClosedIsCandidate(s, id);
    CloseIs(s, id);
    CandidateNormalizes(Closed(s, id));
  }

  lemma OthersRemain(s: State, a: nat)
    requires RunInv(s) && a < |s.groups| && Without(Shown(s.groups[a]), s.activeTerminalId) != []
    ensures s.activeTerminalId in s.terminalIds && Without(s.terminalIds, s.activeTerminalId) != []
    ensures Faces(s.groups)[a] == Face(s.groups[a].id, Shown(s.groups[a]))
  {
    var x := Without(Shown(s.groups[a]), s.activeTerminalId)[0];
    hide Terminals, RunInv, Without;
    RunRecords(s);
    ShownIsOpen(s, a);
    assert x in Shown(s.groups[a]);
    assert x in s.terminalIds;
    assert x in Without(s.terminalIds, s.activeTerminalId);
  }

  lemma ClosedAt(s: State, a: nat)
    requires s.activeTerminalId in s.terminalIds && Without(s.terminalIds, s.activeTerminalId) != []
    requires a < |s.groups| && FirstShowing(s.groups, s.activeTerminalId) == a && s.groups[a].id == s.activeGroupId
    requires var gs := CloseIn(s.groups, s.activeTerminalId);
             var i := GroupIndex(gs, s.activeGroupId);
             i < |gs| && FirstShowing(gs, gs[i].activeTerminalId) == i
    ensures Closed(s, s.activeTerminalId).activeGroupId == s.activeGroupId
  {
    hide CloseIn, FirstShowing, Without, Terminals;
  }
}
