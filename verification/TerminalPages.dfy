/** The page around the terminals: a workspace of terminals only never has its chat tab chosen. */
module TerminalPages {
  import opened Sequences
  import opened TerminalGroups
  import opened TerminalState
  import opened TerminalActions
  import opened TerminalInvariant

  predicate TabShows(v: View) {
    v.layout == TerminalOnly ==> v.tab == TerminalTab
  }

  lemma NormalizedTab(c: State)
    ensures TabShows(Renormalize(c).view) <==> TabShows(c.view)
  {
    hide NormalizeGroups, NormalizeIds, EnsureLabels, SyncGroups, ResolveGroupId;
  }

  /** A setter that leaves the chosen tab on screen did so before, or put it there. */
  lemma EditKeepsTab(v: View, e: ViewEdit)
    requires TabShows(v)
    ensures TabShows(EditView(v, e))
  {
  }

  lemma ClosedLastTab(n: State)
    ensures TabShows(ClosedLast(n).view)
  {
    hide Renormalize;
    NormalizedTab(DefaultState().(view := View(TerminalPage, false, n.view.presentation, n.view.layout, TerminalTab, n.view.height)));
  }

  lemma OpenKeepsTab(s: State, a: Action)
    requires TabShows(s.view) && (a.AOpenAlone? || a.AOpenBeside? || a.AOpenTab? || a.AOpenFullWidth?)
    ensures TabShows(Step(s, a).view)
  {
    hide Renormalize, WithoutTerminal, WithTerminal, Destination, SplitGroup, AddTabToGroup, FirstShowing, Shown;
    forall c: State
      ensures TabShows(Renormalize(c).view) <==> TabShows(c.view)
    {
      NormalizedTab(c);
    }
  }

  lemma CloseKeepsTab(s: State, id: string)
    requires TabShows(s.view)
    ensures TabShows(Close(s, id).view)
  {
    hide Renormalize, CloseIn, FirstShowing, GroupIndex, ClosedLast, Without;
    NormalizedTab(s);
    ClosedLastTab(Renormalize(s));
    forall c: State
      ensures TabShows(Renormalize(c).view) <==> TabShows(c.view)
    {
      NormalizedTab(c);
    }
  }

  lemma {:induction false} CloseEachKeepsTab(s: State, ids: seq<string>)
    requires TabShows(s.view)
    ensures TabShows(CloseEach(s, ids).view)
    decreases |ids|
  {
    hide Close;
    if ids != [] {
      CloseKeepsTab(s, ids[0]);
      CloseEachKeepsTab(Close(s, ids[0]), ids[1..]);
    }
  }

  /** No action, from any state, hides the tab that is chosen. */
  lemma StepKeepsTab(s: State, a: Action)
    requires TabShows(s.view)
    ensures TabShows(Step(s, a).view)
  {
    hide Renormalize, Close, CloseEach, OpenAlone, OpenBeside, OpenTab, OpenFullWidth, EditView, TabShows;
    NormalizedTab(s);
    match a
    case AOpenAlone(_) => OpenKeepsTab(s, a);
    case AOpenBeside(_, _) => OpenKeepsTab(s, a);
    case AOpenTab(_, _) => OpenKeepsTab(s, a);
    case AOpenFullWidth(_) => OpenKeepsTab(s, a);
    case AResize(groupId, splitId, weights) => ResizeKeepsTab(s, groupId, splitId, weights);
    case ALook(edit) => EditKeepsTab(Renormalize(s).view, edit);
    case AClose(id) => CloseKeepsTab(s, id);
    case ACloseGroup(groupId) =>
      var n := Renormalize(s);
      var i := GroupIndex(n.groups, groupId);
      if i < |n.groups| {
        CloseEachKeepsTab(n, Shown(n.groups[i]));
      }
    case _ =>
  }

  lemma ResizeKeepsTab(s: State, groupId: string, splitId: string, weights: seq<real>)
    requires TabShows(s.view)
    ensures TabShows(Resize(s, groupId, splitId, weights).view)
  {
    hide Renormalize, GroupIndex;
    forall c: State
      ensures TabShows(Renormalize(c).view) <==> TabShows(c.view)
    {
      NormalizedTab(c);
    }
  }

  /** In every run from the default state the chosen tab of the workspace is on screen. */
  lemma {:induction false} RunShowsTab(actions: seq<Action>)
    ensures TabShows(Run(DefaultState(), actions).view)
  {
    hide Step;
    if actions != [] {
      RunShowsTab(actions[..|actions| - 1]);
      StepKeepsTab(Run(DefaultState(), actions[..|actions| - 1]), actions[|actions| - 1]);
    }
  }
}
