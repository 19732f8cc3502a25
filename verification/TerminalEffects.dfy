/** What each terminal action does to the whole state: the picture of every group, the tabs shown, the records. */
module TerminalEffects {
  import opened Strings
  import opened Sequences
  import opened Wrappers
  import opened UniqueNames
  import opened PaneTree
  import opened PaneGeometry
  import opened PaneSplit
  import opened PaneEdit
  import opened PaneUpdate
  import opened PaneEffects
  import opened TerminalGroups
  import opened TerminalGroupsStable
  import opened TerminalState
  import opened TerminalActions
  import opened TerminalRuns
  import TerminalClosing

  // ----- numbered titles -----

  function Numbered(base: string, k: nat): string {
    base + " " + Decimal(k)
  }

  /** The first numbered title that is not taken. */
  ghost predicate FirstNumbered(title: string, base: string, taken: set<string>) {
    exists k: nat :: k >= 1 && title == Numbered(base, k) && title !in taken && forall j: nat :: 1 <= j < k ==> Numbered(base, j) in taken
  }

  /** The title a terminal shows: its override, else its label. */
  function TitleOf(s: State, id: string): string {
    if id in s.overrides then s.overrides[id] else if id in s.labels then s.labels[id] else ""
  }

  function OtherTitles(s: State, id: string): set<string> {
    set other | other in s.terminalIds && other != id :: TitleOf(s, other)
  }

  lemma TitleIsShown(s: State, id: string)
    requires RecordsOk(s) && id in s.terminalIds
    ensures DisplayTitle(id, s.labels, s.overrides) == TitleOf(s, id) != ""
  {
    hide Trim;
    TrimIsTrimmed("");
    TrimIsTrimmed(s.labels[id]);
    if id in s.overrides {
      TrimIsTrimmed(s.overrides[id]);
    }
  }

  lemma TakenAre(s: State, id: string)
    requires RecordsOk(s)
    ensures TakenTitles(id, s.labels, s.overrides) == OtherTitles(s, id)
  {
    hide DisplayTitle, TitleOf, Clean;
    forall other <- s.terminalIds
      ensures DisplayTitle(other, s.labels, s.overrides) == TitleOf(s, other) != ""
    {
      TitleIsShown(s, other);
    }
  }

  lemma UniqueIsFirst(base: string, taken: set<string>)
    ensures FirstNumbered(UniqueTitle(base, taken), base, taken)
  {
    hide Decimal;
    TitlesDiffer(base);
    var k := FirstFree(TitleName(base), taken, 0);
    assert base + [' '] == base + " ";
    forall j: nat | 1 <= j < k + 1
      ensures Numbered(base, j) in taken
    {
      assert TitleName(base)(j - 1) in taken;
    }
    assert UniqueTitle(base, taken) == TitleName(base)(k) == Numbered(base, k + 1);
  }

  // ----- a successful opening -----

  /** The state with a new active terminal in these groups, titled "Terminal 1" or the next number free. */
  predicate OpenedAs(s: State, r: State, id: string, groups: seq<Group>, groupId: string) {
    && r == s.(view := s.view.(open := true), terminalIds := s.terminalIds + [id], activeTerminalId := id,
               groups := groups, activeGroupId := groupId, labels := r.labels)
    && id in r.labels && r.labels == s.labels[id := r.labels[id]]
  }

  ghost predicate TitledAs(s: State, r: State, id: string, base: string) {
    id in r.labels && FirstNumbered(r.labels[id], base, OtherTitles(s, id))
  }

  lemma LabelsFilled(c: State, labels: map<string, string>)
    requires var ids := NormalizeIds(c.terminalIds);
             EnsureLabels(ids, NormalizeTexts(c.labels, ids), NormalizeTexts(c.overrides, ids), KeepOpen(c.cliKinds, ids))
             == EnsureLabels(ids, NormalizeTexts(labels, ids), NormalizeTexts(c.overrides, ids), KeepOpen(c.cliKinds, ids))
    ensures Renormalize(c) == Renormalize(c.(labels := labels))
  {
    hide EnsureLabels, NormalizeTexts, NormalizeIds, NormalizeGroups, SyncGroups, ResolveGroupId, NormalizeRunning, KeepOpen;
  }

  function NewLabel(s: State, id: string): string {
    UniqueTitle("Terminal", TakenTitles(id, s.labels, s.overrides))
  }

  lemma NewLabelFilled(s: State, id: string)
    requires RecordsOk(s) && Fresh(s, id)
    ensures Clean(NewLabel(s, id))
    ensures EnsureLabels(s.terminalIds + [id], s.labels, s.overrides, s.cliKinds) == s.labels[id := NewLabel(s, id)]
  {
    hide Trim, TakenTitles, UniqueTitle;
    TitleIsClean("Terminal", TakenTitles(id, s.labels, s.overrides));
    EnsureLabelsOk(s.terminalIds, s.labels, s.overrides, s.cliKinds, s.terminalIds);
    TrimIsTrimmed("");
    assert (s.terminalIds + [id])[..|s.terminalIds|] == s.terminalIds;
  }

  lemma TextsGrow(texts: map<string, string>, ids: seq<string>, id: string)
    requires OpenTexts(texts, ids)
    ensures OpenTexts(texts, ids + [id])
  {
    hide Clean;
  }

  lemma KeysGrow(keys: set<string>, ids: seq<string>, id: string)
    requires Subset(keys, ids)
    ensures Subset(keys, ids + [id])
  {
  }

  lemma LabelsGrow(labels: map<string, string>, ids: seq<string>, id: string, title: string)
    requires OpenTexts(labels, ids) && (forall t <- ids :: t in labels) && Clean(title)
    ensures OpenTexts(labels[id := title], ids + [id]) && forall t <- ids + [id] :: t in labels[id := title]
  {
    hide Clean;
  }

  lemma RecordsParts(s: State)
    ensures RecordsOk(s) <==>
            && OpenTexts(s.labels, s.terminalIds) && (forall id <- s.terminalIds :: id in s.labels)
            && OpenTexts(s.overrides, s.terminalIds)
            && Subset(s.cliKinds.Keys, s.terminalIds) && Subset(s.attention.Keys, s.terminalIds)
            && Subset(ToSet(s.running), s.terminalIds)
            && s.view.height > 0.0
  {
    hide OpenTexts, Subset;
  }

  /** The records of the larger state are in order once the new terminal has its label. */
  lemma LargerRecords(s: State, id: string, groups: seq<Group>, groupId: string)
    requires RecordsOk(s) && Fresh(s, id)
    ensures RecordsOk(Opened(s, id, groups, groupId).(labels := s.labels[id := NewLabel(s, id)]))
  {
    hide *;
    var r := Opened(s, id, groups, groupId).(labels := s.labels[id := NewLabel(s, id)]);
    OpenedFields(s, id, groups, groupId);
    NewLabelFilled(s, id);
    RecordsParts(s);
    RecordsParts(r);
    TextsGrow(s.overrides, s.terminalIds, id);
    LabelsGrow(s.labels, s.terminalIds, id, NewLabel(s, id));
    KeysGrow(s.cliKinds.Keys, s.terminalIds, id);
    KeysGrow(s.attention.Keys, s.terminalIds, id);
    KeysGrow(ToSet(s.running), s.terminalIds, id);
  }

  lemma OpenedSettled(s: State, id: string, groups: seq<Group>, groupId: string)
    requires RunInv(s) && Fresh(s, id)
    requires groups != [] && Separate(groups) && Covered(groups) == ToSet(s.terminalIds) + {id}
    requires AllOk(groups, ToSet(s.terminalIds) + {id})
    requires ActiveShown(groups, groupId, id)
    requires forall i :: 0 <= i < |groups| && groups[i].id == groupId ==> groups[i].activeTerminalId == id
    ensures Settled(Opened(s, id, groups, groupId).(labels := s.labels[id := NewLabel(s, id)]))
  {
    RunRecords(s);
    hide *;
    LargerRecords(s, id, groups, groupId);
    IdsGrow(s.terminalIds, id) by {
      FreshIsClean(s, id);
    }
    SettledWhen(Opened(s, id, groups, groupId).(labels := s.labels[id := NewLabel(s, id)])) by {
      OpenedFields(s, id, groups, groupId);
    }
  }

  lemma OpenedFields(s: State, id: string, groups: seq<Group>, groupId: string)
    ensures var c := Opened(s, id, groups, groupId);
            && c.terminalIds == s.terminalIds + [id] && c.groups == groups && c.activeGroupId == groupId && c.activeTerminalId == id
            && c.labels == s.labels && c.overrides == s.overrides && c.cliKinds == s.cliKinds && c.running == s.running
            && c.attention == s.attention && c.view == s.view.(open := true)
  {
  }

  lemma SettledWhen(c: State)
    requires IdsOk(c.terminalIds) && RecordsOk(c) && c.activeTerminalId in c.terminalIds
    requires c.groups != [] && AllOk(c.groups, ToSet(c.terminalIds)) && Separate(c.groups) && Covered(c.groups) == ToSet(c.terminalIds)
    requires ActiveShown(c.groups, c.activeGroupId, c.activeTerminalId)
    requires forall i :: 0 <= i < |c.groups| && c.groups[i].id == c.activeGroupId ==> c.groups[i].activeTerminalId == c.activeTerminalId
    ensures Settled(c)
  {
    hide IdsOk, RecordsOk, AllOk, Separate, Covered, Terminals;
  }

  /** The normaliser adds nothing to a successful opening but the new terminal's title. */
  lemma OpenedIs(s: State, id: string, groups: seq<Group>, groupId: string)
    requires RunInv(s) && Fresh(s, id)
    requires groups != [] && Separate(groups) && Covered(groups) == ToSet(s.terminalIds) + {id}
    requires AllOk(groups, ToSet(s.terminalIds) + {id})
    requires ActiveShown(groups, groupId, id)
    requires forall i :: 0 <= i < |groups| && groups[i].id == groupId ==> groups[i].activeTerminalId == id
    ensures var r := Renormalize(Opened(s, id, groups, groupId));
            OpenedAs(s, r, id, groups, groupId) && TitledAs(s, r, id, "Terminal")
  {
    RunRecords(s);
    var labels := s.labels[id := NewLabel(s, id)];
    var c := Opened(s, id, groups, groupId);
    assert NoDup(c.(labels := labels).running);
    hide *;
    OpenedFields(s, id, groups, groupId);
    OpenedSettled(s, id, groups, groupId);
    SettledFixed(c.(labels := labels));
    LabelsSame(s, id, c);
    LabelsFilled(c, labels);
    OpenedAsIs(s, c.(labels := labels), id, groups, groupId);
    TakenAre(s, id);
    UniqueIsFirst("Terminal", TakenTitles(id, s.labels, s.overrides));
    TitledWhen(s, c.(labels := labels), id);
  }

  lemma TitledWhen(s: State, r: State, id: string)
    requires r.labels == s.labels[id := NewLabel(s, id)]
    requires FirstNumbered(UniqueTitle("Terminal", TakenTitles(id, s.labels, s.overrides)), "Terminal", OtherTitles(s, id))
    ensures TitledAs(s, r, id, "Terminal")
  {
    hide FirstNumbered, UniqueTitle, TakenTitles, OtherTitles;
  }

  lemma OpenedAsIs(s: State, r: State, id: string, groups: seq<Group>, groupId: string)
    requires r == Opened(s, id, groups, groupId).(labels := s.labels[id := NewLabel(s, id)])
    ensures OpenedAs(s, r, id, groups, groupId)
  {
    hide NewLabel;
  }

  lemma KeptOpen(kinds: map<string, CliKind>, ids: seq<string>)
    requires Subset(kinds.Keys, ids)
    ensures KeepOpen(kinds, ids) == kinds
  {
  }

  lemma LabelsSame(s: State, id: string, c: State)
    requires RecordsOk(s) && Fresh(s, id) && IdsOk(s.terminalIds)
    requires c.terminalIds == s.terminalIds + [id] && c.labels == s.labels && c.overrides == s.overrides && c.cliKinds == s.cliKinds
    ensures var ids, labels := NormalizeIds(c.terminalIds), s.labels[id := NewLabel(s, id)];
            EnsureLabels(ids, NormalizeTexts(c.labels, ids), NormalizeTexts(c.overrides, ids), KeepOpen(c.cliKinds, ids))
            == EnsureLabels(ids, NormalizeTexts(labels, ids), NormalizeTexts(c.overrides, ids), KeepOpen(c.cliKinds, ids))
  {
    hide *;
    var ids, labels := c.terminalIds, s.labels[id := NewLabel(s, id)];
    FreshIsClean(s, id);
    IdsGrow(s.terminalIds, id);
    NormalizeIdsOk(ids);
    NewLabelFilled(s, id);
    RecordsParts(s);
    TextsGrow(s.overrides, s.terminalIds, id);
    TextsGrow(s.labels, s.terminalIds, id);
    LabelsGrow(s.labels, s.terminalIds, id, NewLabel(s, id));
    KeysGrow(s.cliKinds.Keys, s.terminalIds, id);
    KeptOpen(s.cliKinds, ids);
    NormalizeTextsOk(c.labels, ids);
    NormalizeTextsOk(labels, ids);
    NormalizeTextsOk(c.overrides, ids);
    EnsureLabelsOk(ids, labels, c.overrides, c.cliKinds, ids);
  }

  // ----- what the normaliser does to a candidate -----

  lemma RenormalizedRecords(c: State)
    requires IdsOk(c.terminalIds) && RecordsOk(c)
    ensures var r := Renormalize(c);
            && r.labels == c.labels && r.overrides == c.overrides && r.cliKinds == c.cliKinds && r.attention == c.attention
            && r.view == c.view && r.terminalIds == c.terminalIds
  {
    NormalizeIdsOk(c.terminalIds);
    SettledRecords(c);
    RecordsParts(c);
    hide EnsureLabels, NormalizeTexts, NormalizeIds, NormalizeGroups, SyncGroups, ResolveGroupId, NormalizeRunning, KeepOpen, RecordsOk, IdsOk;
  }

  /** The groups flattened, the active one turned to the active terminal. */
  function Resynced(c: State): seq<Group> {
    SyncGroups(SettleAll(c.groups, ToSet(c.terminalIds)), c.activeGroupId, c.activeTerminalId)
  }

  lemma RunningStays(c: State)
    requires NoDup(c.running) && AllClean(c.running) && RecordsOk(c)
    ensures NormalizeRunning(c.running, c.terminalIds) == c.running
  {
    RecordsParts(c);
    RunningKept(c.running, c.terminalIds);
    assert forall id <- c.running :: id in ToSet(c.running);
  }

  lemma CandidateParts(c: State)
    requires Candidate(c)
    ensures IdsOk(c.terminalIds) && NoDup(c.running) && AllClean(c.running) && c.activeTerminalId in c.terminalIds
    ensures c.groups != [] && Separate(c.groups) && Covered(c.groups) == ToSet(c.terminalIds) && (forall i :: 0 <= i < |c.groups| ==> TidyGroup(c.groups[i], ToSet(c.terminalIds)))
    ensures ActiveShown(c.groups, c.activeGroupId, c.activeTerminalId)
  {
    hide TidyGroup, Separate, Covered, AllFit, ActiveShown, IdsOk, AllClean, NoDup;
  }

  /** A candidate with records in order is only flattened and synchronised. */
  lemma CandidateIs(c: State)
    requires Candidate(c) && RecordsOk(c)
    ensures Renormalize(c) == c.(groups := Resynced(c))
  {
    hide *;
    var valid := ToSet(c.terminalIds);
    CandidateParts(c);
    NormalizeIdsOk(c.terminalIds);
    TidyGroupsSettle(c.groups, c.terminalIds);
    SettleKeepsFaces(c.groups, valid);
    SameFacesFit(c.groups, SettleAll(c.groups, valid));
    ResolvesToShown(SettleAll(c.groups, valid), c.activeGroupId, c.activeTerminalId);
    NormalizedParts(c, SettleAll(c.groups, valid));
    RenormalizedRecords(c);
    RunningStays(c);
    ResyncedIs(c);
  }

  lemma ResyncedIs(c: State)
    ensures Resynced(c) == SyncGroups(SettleAll(c.groups, ToSet(c.terminalIds)), c.activeGroupId, c.activeTerminalId)
  {
    hide SettleAll, SyncGroups;
  }

  // ----- opening alone and at full width -----

  /** A pane of one terminal. */
  function SinglePane(id: string): Node {
    Leaf("pane-" + id, [id], id, "")
  }

  /** Opened alone, a terminal becomes a group of one pane behind the others, which stay as they are. */
  lemma OpenAloneShows(s: State, id: string)
    requires RunInv(s) && Fresh(s, id)
    ensures var r := OpenAlone(s, id);
            && OpenedAs(s, r, id, s.groups + [Group(r.activeGroupId, id, SinglePane(id))], r.activeGroupId)
            && TitledAs(s, r, id, "Terminal") && FirstGroupId(r.activeGroupId, "group-" + id, GroupIds(s.groups))
  {
    hide RunInv, Partition, AllFit, Terminals, GroupOk, Covered, Separate, AllOk, Renormalize, Trim, UniqueGroupId, TitledAs, OpenedAs, FirstGroupId;
    Parts(s);
    FreshIsNowhere(s, id);
    TrimIsTrimmed(id);
    var ids := ToSet(s.terminalIds);
    PrefixIsClean("group-", id);
    var groupId := UniqueGroupId(FallbackGroupId(id), GroupIds(s.groups));
    GroupIdIsFirst(FallbackGroupId(id), GroupIds(s.groups));
    var g := NewGroup(groupId, id);
    NewGroupOk(groupId, id, ids + {id});
    AppendedGroup(s.groups, g, ids, id);
    assert forall i :: 0 <= i < |s.groups| ==> s.groups[i].id in GroupIds(s.groups);
    OpenedIs(s, id, s.groups + [g], groupId);
    OpenedActive(s, Renormalize(Opened(s, id, s.groups + [g], groupId)), id, s.groups + [g], groupId);
  }

  lemma OpenedActive(s: State, r: State, id: string, groups: seq<Group>, groupId: string)
    requires OpenedAs(s, r, id, groups, groupId)
    ensures r.activeGroupId == groupId && r.groups == groups && r.activeTerminalId == id && r.view == s.view.(open := true)
  {
  }

  /** Opened at full width it does the same, and the page is a workspace of terminals only. */
  lemma OpenFullWidthShows(s: State, id: string)
    requires RunInv(s) && Fresh(s, id)
    ensures var n := OpenAlone(s, id);
            OpenFullWidth(s, id) == n.(view := View(s.view.entryPoint, true, Workspace, TerminalOnly, TerminalTab, s.view.height))
  {
    OpenAloneKeeps(s, id);
    OpenAloneShows(s, id);
    var n := OpenAlone(s, id);
    OpenedActive(s, n, id, s.groups + [Group(n.activeGroupId, id, SinglePane(id))], n.activeGroupId);
    var next := n.(view := View(s.view.entryPoint, true, Workspace, TerminalOnly, TerminalTab, s.view.height));
    RunRecords(n);
    TerminalClosing.RunHeight(s);
    hide RunInv, Renormalize, OpenAlone, OpenedAs, TitledAs, RecordsOk;
    FullView(n, next);
    InvariantIsCandidate(next);
  }

  lemma FullView(n: State, next: State)
    requires RunInv(n) && next == n.(view := next.view) && next.view.height > 0.0
    ensures RunInv(next)
  {
    RunRecords(n);
    RecordsChange(n, next);
  }

  // ----- opening beside the active terminal -----

  lemma OpenBesideIs(s: State, id: string, position: Position)
    requires RunInv(s) && Fresh(s, id)
    ensures var a := GroupIndex(s.groups, s.activeGroupId);
            && a < |s.groups|
            && OpenBeside(s, id, position) ==
               if |Shown(s.groups[a])| >= MAX_TERMINALS_PER_GROUP then s
               else Renormalize(Opened(s, id, s.groups[a := SplitGroup(s.groups[a], Request(s.activeTerminalId, id, position, "split-" + id))],
                                       s.groups[a].id))
  {
    hide RunInv, Partition, AllFit, Terminals, GroupOk, Covered, Separate, AllOk, Renormalize, Trim, SplitGroup;
    Parts(s);
    FreshIsNowhere(s, id);
    ActiveIndex(s);
    TrimIsTrimmed(id);
    ShownIsOpen(s, GroupIndex(s.groups, s.activeGroupId));
    SplitKeepsId(s.groups[GroupIndex(s.groups, s.activeGroupId)], Request(s.activeTerminalId, id, position, "split-" + id));
  }

  lemma SplitKeepsId(g: Group, q: Request)
    ensures SplitGroup(g, q).id == g.id
  {
    hide SplitNode;
  }

  /** In every frame the pane of the target is cut in two halves, the new terminal on its side; no other pane moves. */
  ghost predicate DrawnSplit(before: Node, after: Node, target: string, id: string, position: Position) {
    forall frame: Rect ::
      Panes(after, frame) == SplitPane(Panes(before, frame), Request(target, id, position, "split-" + id))
  }

  /**
   * Opened beside the active terminal, a terminal takes half of its pane, on the side named, and is
   * active; every other pane and group stays. In a full group nothing happens.
   */
  lemma OpenBesideShows(s: State, id: string, position: Position)
    requires RunInv(s) && Fresh(s, id)
    ensures var r, a := OpenBeside(s, id, position), GroupIndex(s.groups, s.activeGroupId);
            && a < |s.groups|
            && (|Shown(s.groups[a])| >= 6 ==> r == s)
            && (|Shown(s.groups[a])| < 6 ==>
                  && a < |r.groups|
                  && OpenedAs(s, r, id, s.groups[a := Group(s.groups[a].id, id, r.groups[a].layout)], s.activeGroupId)
                  && TitledAs(s, r, id, "Terminal")
                  && DrawnSplit(s.groups[a].layout, r.groups[a].layout, s.activeTerminalId, id, position))
  {
    var a := GroupIndex(s.groups, s.activeGroupId);
    var q := Request(s.activeTerminalId, id, position, "split-" + id);
    hide *;
    OpenBesideIs(s, id, position);
    Parts(s);
    ActiveIndex(s);
    FreshIsClean(s, id);
    ShownIsOpen(s, a);
    GroupAt(s, a);
    CapIsSix();
    if |Shown(s.groups[a])| < 6 {
      var g := SplitGroup(s.groups[a], q);
      SplitGroupOk(s.groups[a], q, ToSet(s.terminalIds));
      FitsIs(g) by {
        assert |Shown(g)| == |Shown(s.groups[a])| + 1;
      }
      GrownGroup(s.groups, a, g, ToSet(s.terminalIds), id);
      SplitGroupIs(s.groups[a], q, ToSet(s.terminalIds));
      ActiveAlone(s.groups, a, g, id);
      OpenedIs(s, id, s.groups[a := g], s.groups[a].id);
      OpenedActive(s, OpenBeside(s, id, position), id, s.groups[a := g], s.groups[a].id);
    }
  }

  lemma CapIsSix()
    ensures MAX_TERMINALS_PER_GROUP == 6
  {
  }

  lemma SplitGroupIs(g: Group, q: Request, valid: set<string>)
    requires GroupOk(g, valid) && q.target in Shown(g) && q.splitId == "split-" + q.newId
    ensures var r := SplitGroup(g, q);
            r == Group(g.id, q.newId, r.layout) && DrawnSplit(g.layout, r.layout, q.target, q.newId, q.position)
  {
    hide Panes, SplitPane, Normal;
    SplitHappens(g.layout, q, valid);
    forall frame: Rect
      ensures Panes(SplitNode(g.layout, q).node, frame) == SplitPane(Panes(g.layout, frame), q)
    {
      SplitHalvesPane(g.layout, q, valid, frame);
    }
  }

  lemma ActiveAlone(gs: seq<Group>, a: nat, g: Group, id: string)
    requires Separate(gs) && a < |gs| && g.id == gs[a].id && g.activeTerminalId == id
    ensures var hs := gs[a := g]; forall i :: 0 <= i < |hs| && hs[i].id == gs[a].id ==> hs[i].activeTerminalId == id
  {
    hide Terminals;
    forall i | 0 <= i < |gs| && i != a
      ensures gs[i].id != gs[a].id
    {
      IdsDiffer(gs, i, a);
    }
  }

  // ----- opening a tab -----

  /** In every frame the panes that list the target have one more tab, which they show; no other pane changes. */
  ghost predicate DrawnTab(before: Node, after: Node, target: string, id: string) {
    forall frame: Rect ::
      Edited(Panes(before, frame), Panes(after, frame), target, (b: Node, a: Node) => TabAdded(b, a, id))
  }

  /** A tab on an open terminal appears in that terminal's pane, is visible and active; in a full group nothing happens. */
  lemma OpenTabShows(s: State, target: string, id: string)
    requires RunInv(s) && Fresh(s, id) && target in s.terminalIds
    ensures var r, b := OpenTab(s, target, id), FirstShowing(s.groups, target);
            && b < |s.groups|
            && (|Shown(s.groups[b])| >= 6 ==> r == s)
            && (|Shown(s.groups[b])| < 6 ==>
                  && b < |r.groups|
                  && OpenedAs(s, r, id, s.groups[b := Group(s.groups[b].id, id, r.groups[b].layout)], s.groups[b].id)
                  && TitledAs(s, r, id, "Terminal")
                  && DrawnTab(s.groups[b].layout, r.groups[b].layout, target, id))
  {
    hide *;
    OpenIsShown(s, target);
    Parts(s);
    var b := FirstShowing(s.groups, target);
    OpenTabIs(s, target, id);
    ShownIsOpen(s, b);
    GroupAt(s, b);
    FreshIsClean(s, id);
    CapIsSix();
    if |Shown(s.groups[b])| < 6 {
      var g := AddTabToGroup(s.groups[b], target, id);
      TabGroupOk(s.groups[b], target, id, ToSet(s.terminalIds));
      FitsIs(g) by {
        assert |Shown(g)| == |Shown(s.groups[b])| + 1;
      }
      GrownGroup(s.groups, b, g, ToSet(s.terminalIds), id);
      TabGroupIs(s.groups[b], target, id, ToSet(s.terminalIds));
      ActiveAlone(s.groups, b, g, id);
      OpenedIs(s, id, s.groups[b := g], s.groups[b].id);
      OpenedActive(s, OpenTab(s, target, id), id, s.groups[b := g], s.groups[b].id);
    }
  }

  lemma TabGroupIs(g: Group, target: string, id: string, valid: set<string>)
    requires GroupOk(g, valid) && target in Shown(g)
    ensures var r := AddTabToGroup(g, target, id); r == Group(g.id, id, r.layout) && DrawnTab(g.layout, r.layout, target, id)
  {
    hide Panes, Normal, Edited;
    UpdateFinds(g.layout, target, AddTab(id), valid);
    forall frame: Rect
      ensures Edited(Panes(g.layout, frame), Panes(UpdateNode(g.layout, target, AddTab(id)).0, frame), target,
                     (b: Node, a: Node) => TabAdded(b, a, id))
    {
      AddTabShows(g.layout, target, id, frame);
    }
  }

  // ----- choosing -----

  /** In every frame the panes that list the terminal show it; no other pane changes. */
  ghost predicate DrawnTurn(before: Node, after: Node, id: string) {
    forall frame: Rect ::
      Edited(Panes(before, frame), Panes(after, frame), id, (b: Node, a: Node) => TurnedTo(b, a, id))
  }

  /** A terminal counts as seen: a mark that it needs review goes, any other mark and every other terminal's stays. */
  predicate Seen(before: map<string, Attention>, after: map<string, Attention>, id: string) {
    after == if id in before && before[id] == NeedsReview then before - {id} else before
  }

  /** A chosen terminal is active, visible in its pane and seen; its group is active, and every other group stays. */
  lemma ChooseShows(s: State, id: string)
    requires RunInv(s)
    ensures var r, i := Choose(s, id), FirstShowing(s.groups, id);
            && (id !in s.terminalIds ==> r == s)
            && (id in s.terminalIds ==>
                  && i < |s.groups| && i < |r.groups|
                  && r == s.(activeTerminalId := id, activeGroupId := s.groups[i].id, attention := r.attention,
                             groups := s.groups[i := Group(s.groups[i].id, id, r.groups[i].layout)])
                  && DrawnTurn(s.groups[i].layout, r.groups[i].layout, id)
                  && Seen(s.attention, r.attention, id))
  {
    hide RunInv, Renormalize, Terminals, FirstShowing, Partition, ActivateInGroup, AllFit, GroupOk, Covered, Separate, AllOk, DrawnTurn;
    Parts(s);
    if id in s.terminalIds {
      OpenIsShown(s, id);
      var i := FirstShowing(s.groups, id);
      TurnGroupIs(s.groups[i], id, ToSet(s.terminalIds));
      forall k | 0 <= k < |s.groups| && k != i
        ensures s.groups[k].id != s.groups[i].id
      {
        IdsDiffer(s.groups, k, i);
      }
      var gs := ActivateGroups(s.groups, s.groups[i].id, id);
      assert gs == s.groups[i := ActivateInGroup(s.groups[i], id)];
    }
  }

  lemma TurnGroupIs(g: Group, id: string, valid: set<string>)
    requires GroupOk(g, valid) && id in Shown(g)
    ensures var r := ActivateInGroup(g, id); r == Group(g.id, id, r.layout) && DrawnTurn(g.layout, r.layout, id)
  {
    hide Panes, Normal, Edited;
    UpdateFinds(g.layout, id, Activate, valid);
    forall frame: Rect
      ensures Edited(Panes(g.layout, frame), Panes(UpdateNode(g.layout, id, Activate).0, frame), id,
                     (b: Node, a: Node) => TurnedTo(b, a, id))
    {
      ActivateShows(g.layout, id, frame);
    }
  }

  // ----- resizing -----

  /** The active group's own choice is the active terminal. */
  lemma ActiveAgrees(s: State)
    requires RunInv(s)
    ensures forall i :: 0 <= i < |s.groups| && s.groups[i].id == s.activeGroupId ==>
              && s.groups[i].activeTerminalId == s.activeTerminalId && s.activeTerminalId in Shown(s.groups[i])
              && FirstShowing(s.groups, s.activeTerminalId) == i
  {
    ActiveIndex(s);
    var a := GroupIndex(s.groups, s.activeGroupId);
    assert s.groups[a].activeTerminalId == s.activeTerminalId;
    hide *;
    OneShows(s, a, s.activeTerminalId);
  }

  /** The group that shows a terminal is the only one. */
  lemma OneShows(s: State, e: nat, id: string)
    requires RunInv(s) && e < |s.groups| && id in Shown(s.groups[e])
    ensures FirstShowing(s.groups, id) == e && forall i :: 0 <= i < |s.groups| && i != e ==> id !in Shown(s.groups[i])
    ensures forall i :: 0 <= i < |s.groups| && i != e ==> s.groups[i].id != s.groups[e].id
  {
    hide *;
    Parts(s);
    forall i | 0 <= i < |s.groups| && i != e
      ensures id !in Shown(s.groups[i]) && s.groups[i].id != s.groups[e].id
    {
      IdsDiffer(s.groups, e, i);
    }
    FirstShowingIs(s.groups, e, id);
  }

  lemma ResizeIs(s: State, groupId: string, splitId: string, weights: seq<real>)
    requires Renormalize(s) == s
    ensures var i := GroupIndex(s.groups, groupId);
            Resize(s, groupId, splitId, weights) ==
            if i == |s.groups| || !ResizeNode(s.groups[i].layout, splitId, weights).1 then s
            else Renormalize(s.(groups := s.groups[i := s.groups[i].(layout := ResizeNode(s.groups[i].layout, splitId, weights).0)]))
  {
    hide Renormalize, ResizeNode;
  }

  lemma GroupsFixed(gs: seq<Group>, valid: set<string>)
    requires AllOk(gs, valid)
    ensures SettleAll(gs, valid) == gs
  {
    forall i | 0 <= i < |gs|
      ensures Settle(gs[i], valid) == gs[i]
    {
      SettledIsFixed(gs[i], valid);
    }
  }

  /** The group's splits with the id take the weights, normalised; nothing else in the state changes. */
  lemma ResizeShows(s: State, groupId: string, splitId: string, weights: seq<real>)
    requires RunInv(s)
    ensures var r, i := Resize(s, groupId, splitId, weights), GroupIndex(s.groups, groupId);
            && (i == |s.groups| ==> r == s)
            && (i < |s.groups| ==>
                  && i < |r.groups|
                  && r == s.(groups := s.groups[i := s.groups[i].(layout := r.groups[i].layout)])
                  && Takes(WeightsOf(r.groups[i].layout, splitId), WeightsOf(s.groups[i].layout, splitId), weights)
                  && r.groups[i].layout == ResizeNode(s.groups[i].layout, splitId, weights).0)
  {
    hide *;
    Parts(s);
    ResizeIs(s, groupId, splitId, weights);
    var i := GroupIndex(s.groups, groupId);
    if i < |s.groups| {
      var layout, valid := ResizeNode(s.groups[i].layout, splitId, weights).0, ToSet(s.terminalIds);
      GroupLayoutNormal(s, i);
      ResizeKeeps(s.groups[i].layout, splitId, weights, valid);
      ResizeSetsWeights(s.groups[i].layout, splitId, weights, [], valid);
      ResizeFinds(s.groups[i].layout, splitId, weights);
      ShownTerminals(s.groups[i]);
      ResizedCandidate(s, i, layout);
      var c := s.(groups := s.groups[i := s.groups[i].(layout := layout)]);
      RunRecords(s);
      SameRecords(s, c);
      CandidateIs(c);
      RelaidOk(s.groups, i, layout, valid);
      GroupsFixed(c.groups, valid);
      ActiveAgrees(s);
      assert forall k :: 0 <= k < |c.groups| ==> c.groups[k].id == s.groups[k].id && c.groups[k].activeTerminalId == s.groups[k].activeTerminalId;
      SyncedFixed(c.groups, c.activeGroupId, c.activeTerminalId);
      ResyncedIs(c);
      assert s.groups[i].(layout := s.groups[i].layout) == s.groups[i];
    }
  }

  lemma ShownTerminals(g: Group)
    ensures Shown(g) == Terminals(g.layout)
  {
  }

  lemma SameRecords(s: State, c: State)
    requires RecordsOk(s) && c == s.(groups := c.groups)
    ensures RecordsOk(c)
  {
    hide OpenTexts, Subset;
  }

  lemma RelaidOk(gs: seq<Group>, i: nat, layout: Node, valid: set<string>)
    requires AllOk(gs, valid) && i < |gs| && Normal(layout, valid) && Terminals(layout) == Shown(gs[i])
    ensures AllOk(gs[i := gs[i].(layout := layout)], valid)
  {
    hide Normal;
  }

  // ----- titles after a tool, and the page -----

  function ToolName(kind: CliKind): string {
    match kind case Codex => "Codex" case Claude => "Claude"
  }

  lemma ToolTitleIs(s: State, id: string, kind: CliKind)
    requires RecordsOk(s)
    ensures FirstNumbered(UniqueTitle(TitleBase(Some(kind)), TakenTitles(id, s.labels, s.overrides)), ToolName(kind), OtherTitles(s, id))
  {
    hide FirstNumbered, UniqueTitle, TakenTitles, OtherTitles, RecordsOk;
    TakenAre(s, id);
    UniqueIsFirst(ToolName(kind), TakenTitles(id, s.labels, s.overrides));
  }

  /** A terminal without an override is titled after its new tool, with the first number no other title has. */
  lemma SetKindTitles(s: State, id: string, kind: CliKind)
    requires RunInv(s) && id in s.terminalIds && id !in s.overrides && !(id in s.cliKinds && s.cliKinds[id] == kind)
    ensures var r := SetKind(s, id, Some(kind)); id in r.labels && FirstNumbered(r.labels[id], ToolName(kind), OtherTitles(s, id))
  {
    Parts(s);
    RunRecords(s);
    hide RunInv, Renormalize, FirstNumbered, UniqueTitle, TakenTitles, OtherTitles, RecordsOk, TitleBase, SetKind;
    KindTitle(s, id, Some(kind));
    ToolTitleIs(s, id, kind);
  }

  /** A terminal named by hand, or left without a tool, keeps its label. */
  lemma SetKindLeavesLabels(s: State, id: string, kind: Option<CliKind>)
    requires RunInv(s) && (kind.None? || id in s.overrides)
    ensures SetKind(s, id, kind).labels == s.labels
  {
    hide *;
    Parts(s);
    RunRecords(s);
    if id in s.overrides {
      OverrideIsClean(s, id);
    }
    KindLeavesLabels(s, id, kind);
  }

  lemma OverrideIsClean(s: State, id: string)
    requires RecordsOk(s) && id in s.overrides
    ensures Trim(s.overrides[id]) != ""
  {
    TrimIsTrimmed(s.overrides[id]);
  }

  lemma KindLeavesLabels(s: State, id: string, kind: Option<CliKind>)
    requires Renormalize(s) == s && (kind.Some? ==> id in s.overrides && Trim(s.overrides[id]) != "")
    ensures SetKind(s, id, kind).labels == s.labels
  {
    hide Renormalize, UniqueTitle, TakenTitles, Trim, TitleBase;
  }

  lemma SetMetadataTitles(s: State, id: string, kind: CliKind, text: string)
    requires RunInv(s) && id in s.terminalIds && id !in s.overrides
    ensures var r := SetMetadata(s, id, Some(kind), text);
            id in r.labels && FirstNumbered(r.labels[id], ToolName(kind), OtherTitles(s, id))
  {
    Parts(s);
    RunRecords(s);
    hide RunInv, Renormalize, FirstNumbered, UniqueTitle, TakenTitles, OtherTitles, RecordsOk, TitleBase, SetMetadata;
    MetadataTitle(s, id, Some(kind), text);
    ToolTitleIs(s, id, kind);
  }

  /** What each page setter brings about, whatever the page was. */
  predicate Brings(v: View, e: ViewEdit, r: View) {
    && (e.SetHeight? || r.height == v.height)
    && (e.OpenChatPage? || e.OpenTerminalPage? || r.entryPoint == v.entryPoint)
    && (e.OpenTerminalPage? || e.SetPresentation? || r.presentation == v.presentation)
    && (e.SetOpen? || e.OpenTerminalPage? || e.SetPresentation? || r.open == v.open)
    && match e
       case SetOpen(open) => r.open == open && r.layout == v.layout && r.tab == v.tab
       case OpenChatPage =>
         && r.entryPoint == ChatPage
         && (if v.open && v.presentation == Workspace then r.tab == ChatTab && r.layout == Both
             else r.layout == v.layout && r.tab == v.tab)
       case OpenTerminalPage(only) =>
         && r.entryPoint == TerminalPage && r.open && r.presentation == Workspace && r.tab == TerminalTab
         && (r.layout == TerminalOnly <==> v.layout == TerminalOnly || only == Some(true) || (only.None? && v.entryPoint == ChatPage))
       case SetPresentation(mode) =>
         && r.presentation == mode && r.layout == v.layout
         && (if v.presentation == mode then r == v
             else r.open && r.tab == if mode == Workspace then TerminalTab else v.tab)
       case SetTab(tab) => r.tab == tab && r.layout == if tab == ChatTab then Both else v.layout
       case SetLayout(layout) => r.layout == layout && r.tab == if layout == TerminalOnly then TerminalTab else v.tab
       case CloseChat => r.layout == TerminalOnly && (if v.layout == TerminalOnly then r == v else r.tab == TerminalTab)
       case SetHeight(height) =>
         r == v.(height := r.height) && r.height == if height.Some? && height.value > 0.0 then height.value else v.height
  }

  /** A page setter brings about what it is for; turning to the terminals marks the active one as seen; nothing else changes. */
  lemma LookShows(s: State, e: ViewEdit)
    requires RunInv(s)
    ensures var r := Look(s, e);
            && r == s.(view := r.view, attention := r.attention) && Brings(s.view, e, r.view)
            && (if (e.OpenTerminalPage? || e == SetTab(TerminalTab)) && r.view != s.view then Seen(s.attention, r.attention, s.activeTerminalId)
                else r.attention == s.attention)
  {
    hide RunInv, Renormalize;
    Parts(s);
  }
}
