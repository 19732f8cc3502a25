/** The transitions of a thread's terminal state, each starting from the normalised state. */
module TerminalActions {
  import opened Strings
  import opened Sequences
  import opened Wrappers
  import opened UniqueNames
  import opened PaneTree
  import opened PaneSplit
  import opened PaneClose
  import opened PaneUpdate
  import opened TerminalGroups
  import opened TerminalState

  const MAX_TERMINALS_PER_GROUP := 6

  function DefaultState(): State {
    ThreadState(View(ChatPage, false, Drawer, Both, TerminalTab, DEFAULT_TERMINAL_HEIGHT),
                [DEFAULT_TERMINAL_ID], map[DEFAULT_TERMINAL_ID := "Terminal 1"], map[], map[], map[], [],
                DEFAULT_TERMINAL_ID,
                [NewGroup(FallbackGroupId(DEFAULT_TERMINAL_ID), DEFAULT_TERMINAL_ID)],
                FallbackGroupId(DEFAULT_TERMINAL_ID))
  }

  // ----- groups -----

  function Adjacent(node: Node, id: string): Option<string> {
    var ids := Terminals(node);
    if node.Leaf? || id !in ids then None
    else
      var i := IndexOf(ids, id);
      if i + 1 < |ids| then Some(ids[i + 1]) else if i > 0 then Some(ids[i - 1]) else None
  }

  /** removeTerminalFromGroupLayout: None when the group's last terminal goes. */
  function RemoveFromGroup(g: Group, id: string): Option<Group> {
    var adjacent := Adjacent(g.layout, id);
    var r := RemoveNode(g.layout, id);
    if !r.removed then Some(g)
    else if r.node.None? then None
    else
      var ids := Terminals(r.node.value);
      var active := if g.activeTerminalId in ids then g.activeTerminalId
                    else adjacent.GetOr(if ids != [] then ids[0] else DEFAULT_TERMINAL_ID);
      Some(g.(activeTerminalId := active, layout := r.node.value))
  }

  /** Removal from every group, dropping the ones left empty. */
  function CloseIn(gs: seq<Group>, id: string): seq<Group> {
    if gs == [] then []
    else
      (match RemoveFromGroup(gs[0], id) case None => [] case Some(g) => [g]) + CloseIn(gs[1..], id)
  }

  /** Removal from the one group at index e. */
  function CloseAt(gs: seq<Group>, e: nat, id: string): seq<Group>
    requires e < |gs|
  {
    match RemoveFromGroup(gs[e], id)
    case None => gs[..e] + gs[e + 1..]
    case Some(g) => gs[..e] + [g] + gs[e + 1..]
  }

  function SplitGroup(g: Group, q: Request): Group {
    var r := SplitNode(g.layout, q);
    if !r.didSplit then g else Group(g.id, q.newId, r.node)
  }

  function AddTabToGroup(g: Group, target: string, newId: string): Group {
    var r := UpdateNode(g.layout, target, AddTab(newId));
    if !r.1 then g else Group(g.id, newId, r.0)
  }

  function GroupIndex(gs: seq<Group>, id: string): (i: nat)
    ensures i <= |gs|
    ensures i < |gs| ==> gs[i].id == id
    ensures forall k :: 0 <= k < i ==> gs[k].id != id
  {
    if gs == [] then 0 else if gs[0].id == id then 0 else 1 + GroupIndex(gs[1..], id)
  }

  // ----- opening -----

  function WithoutTerminal(n: State, id: string): seq<Group> {
    var e := FirstShowing(n.groups, id);
    if e < |n.groups| then CloseAt(n.groups, e, id) else n.groups
  }

  function WithTerminal(n: State, id: string): seq<string> {
    if id in n.terminalIds then n.terminalIds else n.terminalIds + [id]
  }

  /** A terminal in a group of its own. */
  function OpenAlone(s: State, id: string): State {
    var n := Renormalize(s);
    if Trim(id) == "" then n
    else
      var groups := WithoutTerminal(n, id);
      var groupId := UniqueGroupId(FallbackGroupId(id), GroupIds(groups));
      Renormalize(n.(view := n.view.(open := true), terminalIds := WithTerminal(n, id), activeTerminalId := id,
                     groups := groups + [NewGroup(groupId, id)], activeGroupId := groupId))
  }

  /** The groups among which a split looks for its destination, and the destination's index. */
  function Destination(n: State, groups: seq<Group>): (r: (seq<Group>, nat))
    ensures r.1 < |r.0|
  {
    var a := GroupIndex(groups, n.activeGroupId);
    if a < |groups| then (groups, a)
    else
      var b := FirstShowing(groups, n.activeTerminalId);
      if b < |groups| then (groups, b)
      else
        var id := UniqueGroupId(FallbackGroupId(n.activeTerminalId), GroupIds(groups));
        (groups + [NewGroup(id, n.activeTerminalId)], |groups|)
  }

  /** A terminal beside the active one, in the active group. */
  function OpenBeside(s: State, id: string, position: Position): State {
    var n := Renormalize(s);
    if Trim(id) == "" then n
    else
      var d := Destination(n, WithoutTerminal(n, id));
      var target := d.0[d.1];
      if id !in n.terminalIds && id !in Shown(target) && |Shown(target)| >= MAX_TERMINALS_PER_GROUP then n
      else
        var groups := if id in Shown(target) then d.0
                      else d.0[d.1 := SplitGroup(target, Request(n.activeTerminalId, id, position, "split-" + id))];
        Renormalize(n.(view := n.view.(open := true), terminalIds := WithTerminal(n, id), activeTerminalId := id,
                       groups := groups, activeGroupId := groups[d.1].id))
  }

  /** A terminal as a further tab of the pane that shows the target. */
  function OpenTab(s: State, target: string, id: string): State {
    var n := Renormalize(s);
    if Trim(id) == "" || id in n.terminalIds then n
    else
      var a := FirstShowing(n.groups, target);
      var b := if a < |n.groups| then a else FirstShowing(n.groups, n.activeTerminalId);
      if b == |n.groups| then OpenAlone(n, id)
      else if |Shown(n.groups[b])| >= MAX_TERMINALS_PER_GROUP then n
      else
        Renormalize(n.(view := n.view.(open := true), terminalIds := n.terminalIds + [id], activeTerminalId := id,
                       groups := n.groups[b := AddTabToGroup(n.groups[b], target, id)],
                       activeGroupId := n.groups[b].id))
  }

  function OpenFullWidth(s: State, id: string): State {
    var n := OpenAlone(s, id);
    Renormalize(n.(view := n.view.(open := true, presentation := Workspace, layout := TerminalOnly, tab := TerminalTab),
                   activeTerminalId := id))
  }

  // ----- choosing, resizing, reporting -----

  function ClearReview(attention: map<string, Attention>, id: string): map<string, Attention> {
    if Lookup(attention, id) == Some(NeedsReview) then attention - {id} else attention
  }

  function ActivateGroups(gs: seq<Group>, groupId: string, id: string): (r: seq<Group>)
    ensures |r| == |gs| && forall i :: 0 <= i < |gs| ==> r[i] == if gs[i].id == groupId then ActivateInGroup(gs[i], id) else gs[i]
  {
    seq(|gs|, i requires 0 <= i < |gs| => if gs[i].id == groupId then ActivateInGroup(gs[i], id) else gs[i])
  }

  function Choose(s: State, id: string): State {
    var n := Renormalize(s);
    if id !in n.terminalIds then n
    else
      var i := FirstShowing(n.groups, id);
      var groupId := if i < |n.groups| then n.groups[i].id else n.activeGroupId;
      n.(activeTerminalId := id, groups := ActivateGroups(n.groups, groupId, id), activeGroupId := groupId,
         attention := ClearReview(n.attention, id))
  }

  function Resize(s: State, groupId: string, splitId: string, weights: seq<real>): State {
    var n := Renormalize(s);
    var i := GroupIndex(n.groups, groupId);
    if i == |n.groups| then n
    else
      var r := ResizeNode(n.groups[i].layout, splitId, weights);
      if !r.1 then n else Renormalize(n.(groups := n.groups[i := n.groups[i].(layout := r.0)]))
  }

  function Report(s: State, id: string, isRunning: bool, state: Option<Attention>): State {
    var n := Renormalize(s);
    if id !in n.terminalIds then n
    else
      n.(running := if isRunning then (if id in n.running then n.running else n.running + [id]) else Without(n.running, id),
         attention := if state.Some? then n.attention[id := state.value] else n.attention - {id})
  }

  function SetOverride(s: State, id: string, title: string): State {
    var n := Renormalize(s);
    if id !in n.terminalIds then n
    else n.(overrides := if Trim(title) == "" then n.overrides - {id} else n.overrides[id := Trim(title)])
  }

  function SetKind(s: State, id: string, kind: Option<CliKind>): State {
    var n := Renormalize(s);
    if id !in n.terminalIds || Lookup(n.cliKinds, id) == kind then n
    else
      var kinds := if kind.Some? then n.cliKinds[id := kind.value] else n.cliKinds - {id};
      var labels := if kind.Some? && Trim(Lookup(n.overrides, id).GetOr("")) == ""
                    then n.labels[id := UniqueTitle(TitleBase(kind), TakenTitles(id, n.labels, n.overrides))] else n.labels;
      n.(labels := labels, cliKinds := kinds)
  }

  /** Metadata reported for a terminal: its tool, and a label taken only while it has neither tool nor override. */
  function SetMetadata(s: State, id: string, kind: Option<CliKind>, text: string): State {
    var n := Renormalize(s);
    if id !in n.terminalIds then n
    else
      var current := Lookup(n.labels, id).GetOr("");
      var next := if Trim(Lookup(n.overrides, id).GetOr("")) != "" then current
                  else if kind.Some? then UniqueTitle(TitleBase(kind), TakenTitles(id, n.labels, n.overrides))
                  else if Trim(text) != "" then Trim(text) else current;
      if current == next && Lookup(n.cliKinds, id) == kind then n
      else
        n.(labels := n.labels[id := next], cliKinds := if kind.Some? then n.cliKinds[id := kind.value] else n.cliKinds - {id})
  }

  // ----- the page around the terminals -----

  datatype ViewEdit =
    | SetOpen(open: bool)
    | OpenChatPage
    | OpenTerminalPage(terminalOnly: Option<bool>)
    | SetPresentation(mode: Presentation)
    | SetTab(tab: WorkspaceTab)
    | SetLayout(layout: WorkspaceLayout)
    | CloseChat
    | SetHeight(height: Option<real>)

  function EditView(v: View, e: ViewEdit): View {
    match e
    case SetOpen(open) => v.(open := open)
    case OpenChatPage =>
      if v.open && v.presentation == Workspace then v.(entryPoint := ChatPage, layout := Both, tab := ChatTab)
      else v.(entryPoint := ChatPage)
    case OpenTerminalPage(terminalOnly) =>
      var only := terminalOnly.GetOr(if v.entryPoint == TerminalPage then v.layout == TerminalOnly else true);
      v.(entryPoint := TerminalPage, open := true, presentation := Workspace,
         layout := if only then TerminalOnly else v.layout, tab := TerminalTab)
    case SetPresentation(mode) =>
      if v.presentation == mode then v
      else v.(open := true, presentation := mode, tab := if mode == Workspace then TerminalTab else v.tab)
    case SetTab(tab) => v.(layout := if tab == ChatTab then Both else v.layout, tab := tab)
    case SetLayout(layout) => v.(layout := layout, tab := if layout == TerminalOnly then TerminalTab else v.tab)
    case CloseChat => if v.layout == TerminalOnly then v else v.(layout := TerminalOnly, tab := TerminalTab)
    case SetHeight(height) => if height.Some? && height.value > 0.0 then v.(height := height.value) else v
  }

  /** Turning to the terminal marks the active one as seen. */
  predicate TurnsToTerminal(e: ViewEdit) {
    e.OpenTerminalPage? || e == SetTab(TerminalTab)
  }

  function Look(s: State, e: ViewEdit): State {
    var n := Renormalize(s);
    var view := EditView(n.view, e);
    n.(view := view,
       attention := if TurnsToTerminal(e) && view != n.view then ClearReview(n.attention, n.activeTerminalId) else n.attention)
  }

  // ----- closing -----

  function Close(s: State, id: string): State {
    var n := Renormalize(s);
    if id !in n.terminalIds then n
    else
      var remaining := Without(n.terminalIds, id);
      if remaining == [] then ClosedLast(n)
      else
        var e := FirstShowing(n.groups, id);
        var sourceId := if e < |n.groups| then n.groups[e].id else n.activeGroupId;
        var groups := CloseIn(n.groups, id);
        var source := GroupIndex(groups, sourceId);
        var active := if n.activeTerminalId != id then n.activeTerminalId
                      else if source < |groups| then groups[source].activeTerminalId
                      else remaining[Min(IndexOf(n.terminalIds, id), |remaining| - 1)];
        var a := FirstShowing(groups, active);
        var groupId := if a < |groups| then groups[a].id
                       else if groups != [] then groups[0].id else FallbackGroupId(active);
        Renormalize(ThreadState(n.view, remaining, n.labels - {id}, n.overrides - {id}, n.cliKinds - {id},
                                n.attention - {id}, Without(n.running, id), active, groups, groupId))
  }

  /** The default state; a thread whose page is the terminal keeps its page and sizes. */
  function ClosedLast(n: State): State {
    if n.view.entryPoint == TerminalPage then
      Renormalize(DefaultState().(view := View(TerminalPage, false, n.view.presentation, n.view.layout, TerminalTab, n.view.height)))
    else DefaultState()
  }

  function CloseEach(s: State, ids: seq<string>): State
    decreases |ids|
  {
    if ids == [] then s else CloseEach(Close(s, ids[0]), ids[1..])
  }

  function CloseGroup(s: State, groupId: string): State {
    var n := Renormalize(s);
    var i := GroupIndex(n.groups, groupId);
    if i == |n.groups| then n else CloseEach(n, Shown(n.groups[i]))
  }

  // ----- runs -----

  datatype Action =
    | AOpenAlone(id: string)
    | AOpenBeside(id: string, position: Position)
    | AOpenTab(target: string, id: string)
    | AOpenFullWidth(id: string)
    | AChoose(id: string)
    | AResize(groupId: string, splitId: string, weights: seq<real>)
    | AReport(id: string, isRunning: bool, state: Option<Attention>)
    | ASetOverride(id: string, title: string)
    | ASetKind(id: string, kind: Option<CliKind>)
    | ASetMetadata(id: string, kind: Option<CliKind>, text: string)
    | ALook(edit: ViewEdit)
    | AClose(id: string)
    | ACloseGroup(groupId: string)

  function Step(s: State, a: Action): State {
    match a
    case AOpenAlone(id) => OpenAlone(s, id)
    case AOpenBeside(id, position) => OpenBeside(s, id, position)
    case AOpenTab(target, id) => OpenTab(s, target, id)
    case AOpenFullWidth(id) => OpenFullWidth(s, id)
    case AChoose(id) => Choose(s, id)
    case AResize(groupId, splitId, weights) => Resize(s, groupId, splitId, weights)
    case AReport(id, isRunning, state) => Report(s, id, isRunning, state)
    case ASetOverride(id, title) => SetOverride(s, id, title)
    case ASetKind(id, kind) => SetKind(s, id, kind)
    case ASetMetadata(id, kind, text) => SetMetadata(s, id, kind, text)
    case ALook(edit) => Look(s, edit)
    case AClose(id) => Close(s, id)
    case ACloseGroup(groupId) => CloseGroup(s, groupId)
  }
}
