/** Closing groups, the default state, and the invariant of every run. */
module TerminalInvariant {
  import opened Strings
  import opened Sequences
  import opened PaneTree
  import opened TerminalGroups
  import opened TerminalState
  import opened TerminalActions
  import opened TerminalRuns
  import opened TerminalClosing

  // ----- the default state -----

  lemma DefaultGroups()
    ensures var gs := DefaultState().groups;
            && Partition(gs, {DEFAULT_TERMINAL_ID}) && AllFit(gs)
            && ActiveShown(gs, FallbackGroupId(DEFAULT_TERMINAL_ID), DEFAULT_TERMINAL_ID)
            && gs[0].activeTerminalId == DEFAULT_TERMINAL_ID
  {
    var id := DEFAULT_TERMINAL_ID;
    assert Clean(id);
    NewGroupOk(id, id, {id});
    NewGroupOk(FallbackGroupId(id), id, {id});
    var gs := DefaultState().groups;
    assert Shown(gs[0]) == [id] && gs[0].id == FallbackGroupId(id);
    hide Terminals;
    assert id in Covered(gs);
    assert Fits(gs[0]);
  }

  lemma RunInvIs(s: State)
    requires IdsOk(s.terminalIds) && Partition(s.groups, ToSet(s.terminalIds)) && RecordsOk(s) && ActiveOk(s)
    requires NoDup(s.running) && AllFit(s.groups) && ActiveShown(s.groups, s.activeGroupId, s.activeTerminalId)
    ensures RunInv(s)
  {
    hide IdsOk, Partition, RecordsOk, ActiveOk, NoDup, AllFit, ActiveShown;
  }

  lemma DefaultRecords(view: View)
    requires view.height > 0.0
    ensures var s := DefaultState().(view := view); IdsOk(s.terminalIds) && RecordsOk(s) && NoDup(s.running)
  {
    assert Clean(DEFAULT_TERMINAL_ID) && Clean("Terminal 1");
  }

  lemma DefaultPlaces(view: View)
    requires DefaultState().groups[0].activeTerminalId == DEFAULT_TERMINAL_ID
    ensures var s := DefaultState().(view := view);
            ActiveOk(s) && ToSet(s.terminalIds) == {DEFAULT_TERMINAL_ID} && s.groups == DefaultState().groups
            && s.activeGroupId == FallbackGroupId(DEFAULT_TERMINAL_ID) && s.activeTerminalId == DEFAULT_TERMINAL_ID
  {
    hide Terminals;
    var s := DefaultState().(view := view);
    assert s.groups[0].id in GroupIds(s.groups);
  }

  lemma DefaultKeeps(view: View)
    requires view.height > 0.0
    ensures RunInv(DefaultState().(view := view))
  {
    hide *;
    DefaultGroups();
    DefaultRecords(view);
    DefaultPlaces(view);
    RunInvIs(DefaultState().(view := view));
  }

  lemma ClosedLastKeeps(s: State)
    requires s.view.height > 0.0
    ensures RunInv(ClosedLast(s))
    ensures var r := ClosedLast(s);
            && r.view.entryPoint == s.view.entryPoint && !r.view.open && r.terminalIds == ["default"]
            && r.labels == map["default" := "Terminal 1"]
            && (s.view.entryPoint == ChatPage ==> r.view == View(ChatPage, false, Drawer, Both, TerminalTab, 280.0))
    ensures ClosedLast(s) == if s.view.entryPoint == TerminalPage
                             then DefaultState().(view := View(TerminalPage, false, s.view.presentation, s.view.layout, TerminalTab, s.view.height))
                             else DefaultState()
  {
    hide RunInv, Renormalize;
    var view := View(TerminalPage, false, s.view.presentation, s.view.layout, TerminalTab, s.view.height);
    DefaultKeeps(view);
    DefaultKeeps(DefaultState().view);
    InvariantIsCandidate(DefaultState().(view := view));
  }

  // ----- closing a whole group -----

  function WithoutAll(s: seq<string>, ids: seq<string>): seq<string>
    decreases |ids|
  {
    if ids == [] then s else WithoutAll(Without(s, ids[0]), ids[1..])
  }

  lemma {:induction false} CloseFacesElsewhere(fs: seq<Face>, id: string)
    requires forall i :: 0 <= i < |fs| ==> id !in fs[i].shown && fs[i].shown != []
    ensures CloseFaces(fs, id) == fs
  {
    if fs != [] {
      CloseFacesElsewhere(fs[1..], id);
      assert Face(fs[0].id, fs[0].shown) == fs[0];
      assert [fs[0]] + fs[1..] == fs;
    }
  }

  lemma NoFaces(id: string)
    ensures CloseFaces([], id) == []
  {
  }

  lemma {:induction false} CloseFacesConcat(a: seq<Face>, b: seq<Face>, id: string)
    ensures CloseFaces(a + b, id) == CloseFaces(a, id) + CloseFaces(b, id)
  {
    hide *;
    if a == [] {
      assert a + b == b;
      NoFaces(id);
      assert [] + CloseFaces(b, id) == CloseFaces(b, id);
    } else {
      assert (a + b)[1..] == a[1..] + b && (a + b)[0] == a[0];
      CloseFacesConcat(a[1..], b, id);
      CloseFacesUncons(a, id);
      CloseFacesUncons(a + b, id);
    }
  }

  lemma CloseFacesWith(a: seq<Face>, f: Face, b: seq<Face>)
    requires f.shown != [] && NoDup(f.shown)
    requires forall i :: 0 <= i < |a| ==> f.shown[0] !in a[i].shown && a[i].shown != []
    requires forall i :: 0 <= i < |b| ==> f.shown[0] !in b[i].shown && b[i].shown != []
    ensures var left := f.shown[1..];
            CloseFaces(a + [f] + b, f.shown[0]) == a + (if left == [] then [] else [Face(f.id, left)]) + b
  {
    hide *;
    WithoutHead(f.shown);
    CloseFacesAround(a, f, b, f.shown[0]);
  }

  /** Closing the first terminal of one group shortens that group and no other. */
  lemma CloseFacesAt(fs: seq<Face>, a: seq<Face>, f: Face, b: seq<Face>)
    requires fs == a + [f] + b && FacesApart(fs) && f.shown != [] && NoDup(f.shown)
    requires forall i :: 0 <= i < |fs| ==> fs[i].shown != []
    ensures var left := f.shown[1..];
            CloseFaces(fs, f.shown[0]) == a + (if left == [] then [] else [Face(f.id, left)]) + b
  {
    hide *;
    assert fs[|a|] == f;
    ShownNowhereElse(fs, |a|, f.shown[0]);
    forall i | 0 <= i < |a|
      ensures f.shown[0] !in a[i].shown && a[i].shown != []
    {
      assert fs[i] == a[i];
    }
    forall i | 0 <= i < |b|
      ensures f.shown[0] !in b[i].shown && b[i].shown != []
    {
      assert fs[|a| + 1 + i] == b[i];
    }
    CloseFacesWith(a, f, b);
  }

  lemma CloseFacesAround(a: seq<Face>, f: Face, b: seq<Face>, id: string)
    requires forall i :: 0 <= i < |a| ==> id !in a[i].shown && a[i].shown != []
    requires forall i :: 0 <= i < |b| ==> id !in b[i].shown && b[i].shown != []
    ensures var left := Without(f.shown, id);
            CloseFaces(a + [f] + b, id) == a + (if left == [] then [] else [Face(f.id, left)]) + b
  {
    CloseFacesElsewhere(a, id);
    CloseFacesElsewhere(b, id);
    CloseFacesOne(f, id);
    CloseFaces3(a, [f], b, id);
  }

  lemma WithoutHead(s: seq<string>)
    requires NoDup(s) && s != []
    ensures Without(s, s[0]) == s[1..]
  {
    assert s[0] !in s[1..];
  }

  lemma ShownNowhereElse(fs: seq<Face>, k: nat, id: string)
    requires FacesApart(fs) && k < |fs| && id in fs[k].shown
    ensures forall i :: 0 <= i < |fs| && i != k ==> id !in fs[i].shown
  {
    forall i | 0 <= i < |fs| && i != k
      ensures id !in fs[i].shown
    {
      assert i < k ==> Unlike(fs[i], fs[k]);
      assert k < i ==> Unlike(fs[k], fs[i]);
    }
  }

  lemma CloseFacesOne(f: Face, id: string)
    ensures var left := Without(f.shown, id);
            CloseFaces([f], id) == if left == [] then [] else [Face(f.id, left)]
  {
    assert [f][1..] == [] && CloseFaces([], id) == [];
  }

  lemma CloseFaces3(a: seq<Face>, m: seq<Face>, b: seq<Face>, id: string)
    ensures CloseFaces(a + m + b, id) == CloseFaces(a, id) + CloseFaces(m, id) + CloseFaces(b, id)
  {
    CloseFacesConcat(a + m, b, id);
    CloseFacesConcat(a, m, id);
  }

  lemma FacesFacts(s: State)
    requires RunInv(s)
    ensures var fs := Faces(s.groups);
            && FacesApart(fs) && FacesShow(fs) == ToSet(s.terminalIds)
            && forall i :: 0 <= i < |fs| ==> fs[i].shown != [] && NoDup(fs[i].shown)
  {
    hide RunInv, Partition, AllFit, Terminals, GroupOk, Covered, Separate, AllOk, Renormalize, FacesShow, FacesApart;
    Parts(s);
    FacesOfGroups(s.groups);
    forall i | 0 <= i < |s.groups|
      ensures Shown(s.groups[i]) != [] && NoDup(Shown(s.groups[i]))
    {
      assert GroupOk(s.groups[i], ToSet(s.terminalIds)) && Fits(s.groups[i]);
      GroupShowsSome(s.groups[i], ToSet(s.terminalIds));
    }
  }

  lemma GroupShowsSome(g: Group, valid: set<string>)
    requires GroupOk(g, valid)
    ensures Shown(g) != []
  {
  }

  /** A terminal of another face stays when one face's terminals go. */
  lemma OtherRemains(s: State, k: nat, other: nat)
    requires RunInv(s) && k < |s.groups| && other < |s.groups| && other != k
    ensures Without(s.terminalIds, Faces(s.groups)[k].shown[0]) != []
  {
    FacesFacts(s);
    var fs := Faces(s.groups);
    hide RunInv, Terminals;
    assert other < k ==> Unlike(fs[other], fs[k]);
    assert k < other ==> Unlike(fs[k], fs[other]);
    var t := fs[other].shown[0];
    assert t in fs[other].shown && t in FacesShow(fs);
    assert t in Without(s.terminalIds, fs[k].shown[0]);
  }

  /** Closing one group's terminals in turn removes that group and keeps every other. */
  lemma {:induction false} CloseEachRemovesGroup(s: State, k: nat)
    requires RunInv(s) && k < |s.groups| && |s.groups| >= 2
    ensures var fs := Faces(s.groups);
            var r := CloseEach(s, fs[k].shown);
            && RunInv(r) && Faces(r.groups) == fs[..k] + fs[k + 1..] && r.view == s.view
            && r.terminalIds == WithoutAll(s.terminalIds, fs[k].shown)
    decreases |Faces(s.groups)[k].shown|
  {
    hide RunInv, Terminals, Close, CloseFaces;
    FacesFacts(s);
    var fs := Faces(s.groups);
    var id, left := fs[k].shown[0], fs[k].shown[1..];
    OtherRemains(s, k, if k == 0 then 1 else 0);
    assert id in FacesShow(fs) by {
      assert id in fs[k].shown;
    }
    CloseKeeps(s, id);
    assert fs == fs[..k] + [fs[k]] + fs[k + 1..];
    CloseFacesAt(fs, fs[..k], fs[k], fs[k + 1..]);
    var n := Close(s, id);
    if left == [] {
      assert CloseEach(n, left) == n;
    } else {
      var gs := Faces(n.groups);
      assert gs == fs[..k] + [Face(fs[k].id, left)] + fs[k + 1..];
      assert gs[k].shown == left && gs[..k] == fs[..k] && gs[k + 1..] == fs[k + 1..];
      CloseEachRemovesGroup(n, k);
    }
  }

  /** Closing the only group's terminals in turn ends in the default state. */
  lemma {:induction false} CloseEachResets(s: State)
    requires RunInv(s) && |s.groups| == 1
    ensures CloseEach(s, Shown(s.groups[0])) == ClosedLast(s)
    decreases |Shown(s.groups[0])|
  {
    hide RunInv, Terminals, Close, CloseFaces, ClosedLast, Renormalize;
    FacesFacts(s);
    Parts(s);
    var fs := Faces(s.groups);
    var shown := fs[0].shown;
    var id, left := shown[0], shown[1..];
    assert ToSet(shown) == ToSet(s.terminalIds) by {
      OneFace(fs);
    }
    assert id in shown && id in ToSet(shown);
    CloseIs(s, id);
    CloseFacesAt(fs, [], fs[0], fs[1..]);
    if left == [] {
      NothingLeft(s.terminalIds, shown, id);
      assert CloseEach(ClosedLast(s), left) == ClosedLast(s);
    } else {
      assert left[0] in left && left[0] != id && left[0] in ToSet(shown);
      assert left[0] in Without(s.terminalIds, id);
      CloseKeeps(s, id);
      var n := Close(s, id);
      assert Faces(n.groups) == [Face(fs[0].id, left)];
      assert Shown(n.groups[0]) == left by {
        assert Faces(n.groups)[0].shown == left;
      }
      CloseEachResets(n);
      SameViewResets(s, n);
    }
  }

  lemma OneFace(fs: seq<Face>)
    requires |fs| == 1
    ensures FacesShow(fs) == ToSet(fs[0].shown)
  {
  }

  lemma NothingLeft(ids: seq<string>, shown: seq<string>, id: string)
    requires ToSet(shown) == ToSet(ids) && shown == [id]
    ensures Without(ids, id) == []
  {
    forall i | 0 <= i < |ids|
      ensures ids[i] == id
    {
      assert ids[i] in ToSet(ids) && ids[i] in shown;
    }
    WithoutOnly(ids, id);
  }

  lemma {:induction false} WithoutOnly(s: seq<string>, id: string)
    requires forall i :: 0 <= i < |s| ==> s[i] == id
    ensures Without(s, id) == []
  {
    if s != [] {
      WithoutOnly(s[1..], id);
    }
  }

  lemma SameViewResets(s: State, n: State)
    requires s.view == n.view
    ensures ClosedLast(s) == ClosedLast(n)
  {
  }

  /**
   * Closing a group one terminal at a time removes exactly that group's terminals and leaves every
   * other group with its id and terminals; closing the only group resets the thread.
   */
  lemma CloseGroupKeeps(s: State, groupId: string)
    requires RunInv(s)
    ensures var r := CloseGroup(s, groupId);
            var k := GroupIndex(s.groups, groupId);
            && RunInv(r)
            && (k == |s.groups| ==> r == s)
            && (k < |s.groups| == 1 ==> r == ClosedLast(s))
            && (k < |s.groups| && |s.groups| >= 2 ==>
                  && Faces(r.groups) == Faces(s.groups)[..k] + Faces(s.groups)[k + 1..]
                  && r.terminalIds == WithoutAll(s.terminalIds, Shown(s.groups[k])))
  {
    hide RunInv, Terminals, CloseEach, ClosedLast, Renormalize;
    Parts(s);
    RunHeight(s);
    var k := GroupIndex(s.groups, groupId);
    if k < |s.groups| {
      assert Faces(s.groups)[k].shown == Shown(s.groups[k]);
      if |s.groups| == 1 {
        CloseEachResets(s);
        ClosedLastKeeps(s);
      } else {
        CloseEachRemovesGroup(s, k);
      }
    }
  }

  // ----- runs -----

  /** New, split and tab actions get an unused id; a tab is opened on an open terminal. */
  predicate Allowed(s: State, a: Action) {
    match a
    case AOpenAlone(id) => Fresh(s, id)
    case AOpenBeside(id, _) => Fresh(s, id)
    case AOpenTab(target, id) => Fresh(s, id) && target in s.terminalIds
    case AOpenFullWidth(id) => Fresh(s, id)
    case _ => true
  }

  /** Every allowed action keeps the invariant. */
  lemma StepKeeps(s: State, a: Action)
    requires RunInv(s) && Allowed(s, a)
    ensures RunInv(Step(s, a))
  {
    hide RunInv, Close, CloseGroup, Renormalize, ClosedLast;
    match a
    case AOpenAlone(id) => OpenAloneKeeps(s, id);
    case AOpenBeside(id, position) => OpenBesideKeeps(s, id, position);
    case AOpenTab(target, id) => OpenTabKeeps(s, target, id);
    case AOpenFullWidth(id) => OpenFullWidthKeeps(s, id);
    case AChoose(id) => ChooseKeeps(s, id);
    case AResize(groupId, splitId, weights) => ResizeRuns(s, groupId, splitId, weights);
    case AReport(id, isRunning, state) => ReportKeeps(s, id, isRunning, state);
    case ASetOverride(id, title) => SetOverrideKeeps(s, id, title);
    case ASetKind(id, kind) => SetKindKeeps(s, id, kind);
    case ASetMetadata(id, kind, text) => SetMetadataKeeps(s, id, kind, text);
    case ALook(edit) => LookKeeps(s, edit);
    case AClose(id) => CloseAnyKeeps(s, id);
    case ACloseGroup(groupId) => CloseGroupKeeps(s, groupId);
  }

  lemma CloseAnyKeeps(s: State, id: string)
    requires RunInv(s)
    ensures RunInv(Close(s, id))
    ensures id in s.terminalIds && Without(s.terminalIds, id) == [] ==> Close(s, id) == ClosedLast(s)
  {
    hide RunInv, ClosedLast;
    Parts(s);
    RunHeight(s);
    if id in s.terminalIds {
      CloseIs(s, id);
      if Without(s.terminalIds, id) == [] {
        ClosedLastKeeps(s);
      } else {
        CloseKeeps(s, id);
      }
    } else {
      assert Close(s, id) == Renormalize(s);
    }
  }

  function Run(s: State, actions: seq<Action>): State {
    if actions == [] then s else Step(Run(s, actions[..|actions| - 1]), actions[|actions| - 1])
  }

  predicate AllAllowed(s: State, actions: seq<Action>) {
    actions != [] ==>
      AllAllowed(s, actions[..|actions| - 1]) && Allowed(Run(s, actions[..|actions| - 1]), actions[|actions| - 1])
  }

  /** Every run of allowed actions from the default state satisfies the invariant. */
  lemma {:induction false} RunKeeps(actions: seq<Action>)
    requires AllAllowed(DefaultState(), actions)
    ensures RunInv(Run(DefaultState(), actions))
  {
    hide RunInv, Step, Allowed;
    if actions == [] {
      DefaultKeeps(DefaultState().view);
    } else {
      RunKeeps(actions[..|actions| - 1]);
      StepKeeps(Run(DefaultState(), actions[..|actions| - 1]), actions[|actions| - 1]);
    }
  }

  /** In the invariant every open terminal is listed once and shown once over all the groups together. */
  function AllShown(gs: seq<Group>): seq<string> {
    if gs == [] then [] else Shown(gs[0]) + AllShown(gs[1..])
  }

  lemma {:induction false} AllShownOnce(gs: seq<Group>)
    requires Separate(gs) && AllFit(gs)
    ensures NoDup(AllShown(gs)) && ToSet(AllShown(gs)) == Covered(gs)
  {
    hide Terminals;
    if gs != [] {
      var rest := gs[1..];
      forall i, j | 0 <= i < j < |rest|
        ensures Apart(rest[i], rest[j])
      {
        assert rest[i] == gs[i + 1] && rest[j] == gs[j + 1];
      }
      assert forall i :: 0 <= i < |rest| ==> rest[i] == gs[i + 1];
      AllShownOnce(rest);
      assert Fits(gs[0]);
      forall i, t | 0 <= i < |rest| && t in Shown(rest[i])
        ensures t !in Shown(gs[0])
      {
        assert Apart(gs[0], gs[i + 1]);
      }
      assert forall t <- AllShown(rest) :: t in ToSet(AllShown(rest)) && t in Covered(rest);
      NoDupConcat(Shown(gs[0]), AllShown(rest));
      assert gs == [gs[0]] + rest;
      CoveredCons(gs[0], rest);
    }
  }

  lemma CoveredCons(g: Group, rest: seq<Group>)
    ensures Covered([g] + rest) == ToSet(Shown(g)) + Covered(rest)
  {
    hide Terminals;
    var gs := [g] + rest;
    forall t | t in ToSet(Shown(g)) + Covered(rest)
      ensures t in Covered(gs)
    {
      if t in Shown(g) {
        assert t in Shown(gs[0]);
      } else {
        var i :| 0 <= i < |rest| && t in Shown(rest[i]);
        assert t in Shown(gs[i + 1]);
      }
    }
  }

  /** Each open terminal sits in exactly one pane of exactly one group. */
  lemma EachTerminalOnce(s: State)
    requires RunInv(s)
    ensures multiset(AllShown(s.groups)) == multiset(s.terminalIds)
  {
    hide RunInv, Terminals, Covered, Separate, AllFit;
    Parts(s);
    AllShownOnce(s.groups);
    RunRecords(s);
    var all := AllShown(s.groups);
    NoDupMultiset(all);
    NoDupMultiset(s.terminalIds);
    forall t
      ensures multiset(all)[t] == multiset(s.terminalIds)[t]
    {
      assert t in all <==> t in ToSet(all);
      assert t in s.terminalIds <==> t in ToSet(s.terminalIds);
      assert t in all <==> multiset(all)[t] > 0;
      assert t in s.terminalIds <==> multiset(s.terminalIds)[t] > 0;
    }
  }
}
