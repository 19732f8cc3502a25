/** The terminal state of one thread and the normaliser every transition passes through. */
module TerminalState {
  import opened Strings
  import opened Sequences
  import opened Wrappers
  import opened UniqueNames
  import opened PaneTree
  import opened PaneUpdate
  import opened TerminalGroups
  import opened TerminalGroupsStable

  const DEFAULT_TERMINAL_HEIGHT := 280.0

  datatype Surface = ChatPage | TerminalPage
  datatype Presentation = Drawer | Workspace
  datatype WorkspaceLayout = Both | TerminalOnly
  datatype WorkspaceTab = ChatTab | TerminalTab
  datatype CliKind = Codex | Claude
  datatype Attention = NeedsAttention | NeedsReview

  datatype View = View(entryPoint: Surface, open: bool, presentation: Presentation,
                       layout: WorkspaceLayout, tab: WorkspaceTab, height: real)

  /** A thread's terminals; G is the stored or the repaired form of a group. Record keys carry no surrounding white space. */
  datatype ThreadState<G> = ThreadState(
    view: View,
    terminalIds: seq<string>,
    labels: map<string, string>,
    overrides: map<string, string>,
    cliKinds: map<string, CliKind>,
    attention: map<string, Attention>,
    running: seq<string>,
    activeTerminalId: string,
    groups: seq<G>,
    activeGroupId: string)

  type State = ThreadState<Group>
  type StoredState = ThreadState<RawGroup>

  function Store(s: State): StoredState {
    ThreadState(s.view, s.terminalIds, s.labels, s.overrides, s.cliKinds, s.attention, s.running,
                s.activeTerminalId, StoredAll(s.groups), s.activeGroupId)
  }

  // ----- the parts -----

  function NormalizeIds(ids: seq<string>): seq<string> {
    var clean := Dedup(Without(TrimAll(ids), ""));
    if clean == [] then [DEFAULT_TERMINAL_ID] else clean
  }

  /** Running ids are deduplicated first and trimmed afterwards. */
  function NormalizeRunning(running: seq<string>, ids: seq<string>): seq<string> {
    Restrict(Without(TrimAll(Dedup(running)), ""), ToSet(ids))
  }

  function NormalizeTexts(texts: map<string, string>, ids: seq<string>): map<string, string> {
    map id | id in texts && id in ids && Trim(texts[id]) != "" :: Trim(texts[id])
  }

  function KeepOpen<V>(values: map<string, V>, ids: seq<string>): map<string, V> {
    map id | id in values && id in ids :: values[id]
  }

  function TitleBase(kind: Option<CliKind>): string {
    match kind
    case Some(Codex) => "Codex"
    case Some(Claude) => "Claude"
    case None => "Terminal"
  }

  function Lookup<V>(m: map<string, V>, key: string): Option<V> {
    if key in m then Some(m[key]) else None
  }

  /** The title shown for a terminal: its override, else its label. */
  function DisplayTitle(id: string, labels: map<string, string>, overrides: map<string, string>): string {
    var override := Trim(Lookup(overrides, id).GetOr(""));
    if override != "" then override else Trim(Lookup(labels, id).GetOr(""))
  }

  function TakenTitles(exclude: string, labels: map<string, string>, overrides: map<string, string>): set<string> {
    set id | id in labels && id != exclude && DisplayTitle(id, labels, overrides) != "" :: DisplayTitle(id, labels, overrides)
  }

  function EnsureLabel(id: string, labels: map<string, string>, overrides: map<string, string>,
                       kinds: map<string, CliKind>): map<string, string> {
    if Trim(Lookup(labels, id).GetOr("")) != "" then labels
    else labels[id := UniqueTitle(TitleBase(Lookup(kinds, id)), TakenTitles(id, labels, overrides))]
  }

  function EnsureLabels(ids: seq<string>, labels: map<string, string>, overrides: map<string, string>,
                        kinds: map<string, CliKind>): map<string, string> {
    if ids == [] then labels
    else EnsureLabel(ids[|ids| - 1], EnsureLabels(ids[..|ids| - 1], labels, overrides, kinds), overrides, kinds)
  }

  /** ensureTerminalLabels, label by label. */
  method EnsureTerminalLabels(ids: seq<string>, labels: map<string, string>, overrides: map<string, string>,
                              kinds: map<string, CliKind>) returns (next: map<string, string>)
    ensures next == EnsureLabels(ids, labels, overrides, kinds)
  {
    hide TakenTitles, TitleBase, Trim, UniqueTitle;
    next := labels;
    for index := 0 to |ids|
      invariant next == EnsureLabels(ids[..index], labels, overrides, kinds)
    {
      var id := ids[index];
      assert ids[..index + 1][..index] == ids[..index];
      if Trim(Lookup(next, id).GetOr("")) == "" {
        var title := CreateUniqueTitle(TitleBase(Lookup(kinds, id)), TakenTitles(id, next, overrides));
        next := next[id := title];
      }
    }
    assert ids[..|ids|] == ids;
  }

  function FirstShowingFrom(gs: seq<Group>, id: string, from: nat): (i: nat)
    requires from <= |gs|
    ensures from <= i <= |gs|
    ensures i < |gs| ==> id in Shown(gs[i])
    ensures forall k :: from <= k < i ==> id !in Shown(gs[k])
    decreases |gs| - from
  {
    hide Shown;
    if from == |gs| || id in Shown(gs[from]) then from else FirstShowingFrom(gs, id, from + 1)
  }

  function FirstShowing(gs: seq<Group>, id: string): (i: nat)
    ensures i <= |gs|
    ensures i < |gs| ==> id in Shown(gs[i])
    ensures forall k :: 0 <= k < i ==> id !in Shown(gs[k])
  {
    FirstShowingFrom(gs, id, 0)
  }

  function ResolveGroupId(gs: seq<Group>, stored: string, active: string): string {
    if stored in GroupIds(gs) then stored
    else
      var i := FirstShowing(gs, active);
      if i < |gs| then gs[i].id else if gs != [] then gs[0].id else FallbackGroupId(DEFAULT_TERMINAL_ID)
  }

  /** setActiveTerminalInGroupLayout */
  function ActivateInGroup(g: Group, id: string): Group {
    var r := UpdateNode(g.layout, id, Activate);
    if !r.1 then g else Group(g.id, id, r.0)
  }

  function SyncGroup(g: Group, groupId: string, active: string): Group {
    if g.id == groupId && active in Shown(g) && g.activeTerminalId != active then ActivateInGroup(g, active) else g
  }

  function SyncGroups(gs: seq<Group>, groupId: string, active: string): (r: seq<Group>)
    ensures |r| == |gs| && forall i :: 0 <= i < |gs| ==> r[i] == SyncGroup(gs[i], groupId, active)
  {
    seq(|gs|, i requires 0 <= i < |gs| => SyncGroup(gs[i], groupId, active))
  }

  /** normalizeThreadTerminalState */
  function Normalize(s: StoredState): State {
    var ids := NormalizeIds(s.terminalIds);
    var overrides := NormalizeTexts(s.overrides, ids);
    var kinds := KeepOpen(s.cliKinds, ids);
    var active := if s.activeTerminalId in ids then s.activeTerminalId else ids[0];
    var groups := NormalizeGroups(s.groups, ids);
    var groupId := ResolveGroupId(groups, s.activeGroupId, active);
    ThreadState(
      s.view.(height := if s.view.height > 0.0 then s.view.height else DEFAULT_TERMINAL_HEIGHT),
      ids,
      EnsureLabels(ids, NormalizeTexts(s.labels, ids), overrides, kinds),
      overrides,
      kinds,
      KeepOpen(s.attention, ids),
      NormalizeRunning(s.running, ids),
      active,
      SyncGroups(groups, groupId, active),
      groupId)
  }

  function Renormalize(s: State): State {
    Normalize(Store(s))
  }

  // ----- what a normalised state is -----

  predicate OpenTexts(texts: map<string, string>, ids: seq<string>) {
    forall id <- texts :: id in ids && Clean(texts[id])
  }

  predicate Subset(keys: set<string>, ids: seq<string>) {
    forall id <- keys :: id in ids
  }

  predicate IdsOk(ids: seq<string>) {
    ids != [] && NoDup(ids) && AllClean(ids)
  }

  predicate RecordsOk(s: State) {
    && OpenTexts(s.labels, s.terminalIds) && (forall id <- s.terminalIds :: id in s.labels)
    && OpenTexts(s.overrides, s.terminalIds)
    && Subset(s.cliKinds.Keys, s.terminalIds) && Subset(s.attention.Keys, s.terminalIds)
    && Subset(ToSet(s.running), s.terminalIds)
    && s.view.height > 0.0
  }

  /** The active group exists, and if it shows the active terminal it agrees on it. */
  predicate ActiveOk(s: State) {
    && s.activeTerminalId in s.terminalIds
    && s.activeGroupId in GroupIds(s.groups)
    && forall i :: 0 <= i < |s.groups| && s.groups[i].id == s.activeGroupId && s.activeTerminalId in Shown(s.groups[i])
                   ==> s.groups[i].activeTerminalId == s.activeTerminalId
  }

  predicate Settled(s: State) {
    IdsOk(s.terminalIds) && Partition(s.groups, ToSet(s.terminalIds)) && RecordsOk(s) && ActiveOk(s)
  }

  lemma NormalizeIdsOk(ids: seq<string>)
    ensures IdsOk(NormalizeIds(ids))
    ensures IdsOk(ids) ==> NormalizeIds(ids) == ids
  {
    var trimmed := TrimAll(ids);
    var r := NormalizeIds(ids);
    forall k | 0 <= k < |r|
      ensures Clean(r[k])
    {
      if Dedup(Without(trimmed, "")) != [] {
        assert r[k] in trimmed;
        var i :| 0 <= i < |ids| && r[k] == trimmed[i];
        TrimIsTrimmed(ids[i]);
      }
    }
    if IdsOk(ids) {
      TrimAllClean(ids);
      assert "" !in ids;
    }
  }

  lemma ActivateInGroupOk(g: Group, id: string, valid: set<string>)
    requires GroupOk(g, valid) && id in Shown(g)
    ensures var r := ActivateInGroup(g, id);
            GroupOk(r, valid) && Shown(r) == Shown(g) && r.id == g.id && r.activeTerminalId == id
  {
    UpdateFinds(g.layout, id, Activate, valid);
    ActivateKeeps(g.layout, id, valid);
  }

  lemma SyncGroupOk(g: Group, groupId: string, active: string, valid: set<string>)
    requires GroupOk(g, valid)
    ensures var r := SyncGroup(g, groupId, active);
            && GroupOk(r, valid) && Shown(r) == Shown(g) && r.id == g.id
            && (g.id == groupId && active in Shown(g) ==> r.activeTerminalId == active)
  {
    if active in Shown(g) {
      ActivateInGroupOk(g, active, valid);
    }
  }

  /** Groups with the same ids and terminals divide the terminals alike. */
  lemma SameShownPartition(gs: seq<Group>, hs: seq<Group>, valid: set<string>)
    requires Partition(gs, valid) && |hs| == |gs|
    requires forall i :: 0 <= i < |gs| ==> GroupOk(hs[i], valid) && Shown(hs[i]) == Shown(gs[i]) && hs[i].id == gs[i].id
    ensures Partition(hs, valid) && GroupIds(hs) == GroupIds(gs)
  {
    hide GroupOk, Terminals;
    forall i, j | 0 <= i < j < |hs|
      ensures Apart(hs[i], hs[j])
    {
      assert Apart(gs[i], gs[j]);
    }
    assert Covered(hs) == Covered(gs);
  }

  lemma SyncGroupsOk(gs: seq<Group>, groupId: string, active: string, valid: set<string>)
    requires Partition(gs, valid)
    ensures Partition(SyncGroups(gs, groupId, active), valid)
    ensures GroupIds(SyncGroups(gs, groupId, active)) == GroupIds(gs)
    ensures forall i :: 0 <= i < |gs| ==>
              var r := SyncGroups(gs, groupId, active)[i];
              && Shown(r) == Shown(gs[i]) && r.id == gs[i].id
              && (r.id == groupId && active in Shown(r) ==> r.activeTerminalId == active)
  {
    hide SyncGroup, GroupOk, Terminals;
    forall i | 0 <= i < |gs|
      ensures var r := SyncGroups(gs, groupId, active)[i];
              && GroupOk(r, valid) && Shown(r) == Shown(gs[i]) && r.id == gs[i].id
              && (r.id == groupId && active in Shown(r) ==> r.activeTerminalId == active)
    {
      SyncGroupOk(gs[i], groupId, active, valid);
    }
    SameShownPartition(gs, SyncGroups(gs, groupId, active), valid);
  }

  lemma TitleIsClean(base: string, taken: set<string>)
    requires base != "" && !IsSpace(base[0])
    ensures Clean(UniqueTitle(base, taken))
  {
    TitlesDiffer(base);
    NumeralTextIsClean(base + [' '], FirstFree(TitleName(base), taken, 0) + 1);
  }

  lemma EnsureLabelOk(id: string, labels: map<string, string>, overrides: map<string, string>,
                      kinds: map<string, CliKind>, all: seq<string>)
    requires OpenTexts(labels, all) && id in all
    ensures var r := EnsureLabel(id, labels, overrides, kinds);
            OpenTexts(r, all) && id in r && labels.Keys <= r.Keys && (id in labels ==> r == labels)
            && forall k <- labels :: r[k] == labels[k]
  {
    hide TakenTitles, UniqueTitle, Trim;
    TrimIsTrimmed(Lookup(labels, id).GetOr(""));
    if id !in labels {
      TitleIsClean(TitleBase(Lookup(kinds, id)), TakenTitles(id, labels, overrides));
    }
  }

  lemma {:induction false} EnsureLabelsOk(ids: seq<string>, labels: map<string, string>, overrides: map<string, string>,
                                          kinds: map<string, CliKind>, all: seq<string>)
    requires OpenTexts(labels, all) && forall id <- ids :: id in all
    ensures var r := EnsureLabels(ids, labels, overrides, kinds);
            && OpenTexts(r, all) && (forall id <- ids :: id in r)
            && (forall id <- labels :: id in r && r[id] == labels[id])
            && ((forall id <- ids :: id in labels) ==> r == labels)
  {
    hide EnsureLabel, OpenTexts;
    if ids != [] {
      var front, last := ids[..|ids| - 1], ids[|ids| - 1];
      EnsureLabelsOk(front, labels, overrides, kinds, all);
      EnsureLabelOk(last, EnsureLabels(front, labels, overrides, kinds), overrides, kinds, all);
      assert ids == front + [last];
    }
  }

  lemma NormalizeTextsOk(texts: map<string, string>, ids: seq<string>)
    ensures OpenTexts(NormalizeTexts(texts, ids), ids)
    ensures OpenTexts(texts, ids) ==> NormalizeTexts(texts, ids) == texts
  {
    forall id | id in texts
      ensures Trimmed(Trim(texts[id])) && (Clean(texts[id]) ==> Trim(texts[id]) == texts[id])
    {
      TrimIsTrimmed(texts[id]);
    }
  }

  lemma RunningIsOpen(running: seq<string>, ids: seq<string>)
    ensures Subset(ToSet(NormalizeRunning(running, ids)), ids)
  {
  }

  /** Normalising any stored state settles it: its groups divide exactly its open terminals. */
  lemma NormalizeSettles(s: StoredState)
    ensures Settled(Normalize(s))
  {
    hide Partition, EnsureLabels, NormalizeTexts, NormalizeGroups, SyncGroups, Terminals, NormalizeIds, AllClean, NoDup, NormalizeRunning;
    var r := Normalize(s);
    RunningIsOpen(s.running, r.terminalIds);
    NormalizeIdsOk(s.terminalIds);
    var ids := r.terminalIds;
    var groups := NormalizeGroups(s.groups, ids);
    NormalizeGroupsPartition(s.groups, ids);
    GroupsAreSome(groups, ToSet(ids));
    SyncGroupsOk(groups, r.activeGroupId, r.activeTerminalId, ToSet(ids));
    assert groups[0].id in GroupIds(groups);
    assert r.activeGroupId in GroupIds(groups);
    NormalizeTextsOk(s.labels, ids);
    NormalizeTextsOk(s.overrides, ids);
    EnsureLabelsOk(ids, NormalizeTexts(s.labels, ids), r.overrides, r.cliKinds, ids);
  }

  lemma GroupsAreSome(gs: seq<Group>, valid: set<string>)
    requires Partition(gs, valid)
    ensures gs != []
  {
  }

  lemma RunningFixed(running: seq<string>, ids: seq<string>)
    requires NoDup(running) && AllClean(ids) && Subset(ToSet(running), ids)
    ensures NormalizeRunning(running, ids) == running
  {
    forall i | 0 <= i < |running|
      ensures Clean(running[i]) && running[i] in ids
    {
      assert running[i] in ToSet(running);
      var k :| 0 <= k < |ids| && ids[k] == running[i];
    }
    TrimAllClean(running);
    assert "" !in running;
  }

  lemma SyncedFixed(gs: seq<Group>, groupId: string, active: string)
    requires forall i :: 0 <= i < |gs| ==>
               gs[i].id == groupId && active in Shown(gs[i]) ==> gs[i].activeTerminalId == active
    ensures SyncGroups(gs, groupId, active) == gs
  {
  }

  lemma SettledRecords(s: State)
    requires IdsOk(s.terminalIds) && RecordsOk(s)
    ensures NormalizeTexts(s.overrides, s.terminalIds) == s.overrides
    ensures KeepOpen(s.cliKinds, s.terminalIds) == s.cliKinds
    ensures KeepOpen(s.attention, s.terminalIds) == s.attention
    ensures EnsureLabels(s.terminalIds, NormalizeTexts(s.labels, s.terminalIds), s.overrides, s.cliKinds) == s.labels
  {
    hide EnsureLabels, NormalizeTexts;
    NormalizeTextsOk(s.labels, s.terminalIds);
    NormalizeTextsOk(s.overrides, s.terminalIds);
    EnsureLabelsOk(s.terminalIds, s.labels, s.overrides, s.cliKinds, s.terminalIds);
  }

  /** A settled state changes only in its running list, and not at all when that lists nothing twice. */
  lemma SettledFixed(s: State)
    requires Settled(s)
    ensures Renormalize(s) == s.(running := NormalizeRunning(s.running, s.terminalIds))
    ensures NoDup(s.running) ==> Renormalize(s) == s
    ensures NoDup(Renormalize(s).running)
  {
    NormalizeIdsOk(s.terminalIds);
    PartitionFixed(s.groups, s.terminalIds);
    SettledRecords(s);
    SyncedFixed(s.groups, s.activeGroupId, s.activeTerminalId);
    RunningDeduped(s.running, s.terminalIds);
    if NoDup(s.running) {
      RunningFixed(s.running, s.terminalIds);
    }
    hide Partition, EnsureLabels, NormalizeTexts, NormalizeGroups, SyncGroups, Terminals, NormalizeRunning, KeepOpen,
         NormalizeIds, RecordsOk, IdsOk, NoDup;
    assert ResolveGroupId(s.groups, s.activeGroupId, s.activeTerminalId) == s.activeGroupId;
  }

  lemma RunningDeduped(running: seq<string>, ids: seq<string>)
    requires AllClean(ids) && Subset(ToSet(running), ids)
    ensures NoDup(NormalizeRunning(running, ids))
  {
    var once := Dedup(running);
    forall i | 0 <= i < |once|
      ensures Clean(once[i])
    {
      assert once[i] in ToSet(running);
      var k :| 0 <= k < |ids| && ids[k] == once[i];
    }
    TrimAllClean(once);
    WithoutNoDup(once, "");
    RestrictNoDup(Without(once, ""), ToSet(ids));
  }

  // ----- idempotence -----

  /** Two different stored running ids that trim to the same open terminal. */
  predicate PaddedTwins(running: seq<string>, ids: seq<string>) {
    exists a, b :: a in running && b in running && a != b && Trim(a) == Trim(b) && Trim(a) in NormalizeIds(ids)
  }

  predicate TwinIn(s: seq<string>, keep: set<string>) {
    exists i, j :: 0 <= i < j < |s| && s[i] == s[j] && s[i] in keep
  }

  lemma {:induction false} RestrictNoTwin(s: seq<string>, keep: set<string>)
    ensures NoDup(Restrict(s, keep)) <==> !TwinIn(s, keep)
  {
    if s != [] {
      var rest := s[1..];
      RestrictNoTwin(rest, keep);
      var head: seq<string> := if s[0] in keep then [s[0]] else [];
      assert Restrict(s, keep) == head + Restrict(rest, keep);
      NoDupConcat(head, Restrict(rest, keep));
      TwinStep(s, keep);
    }
  }

  lemma TwinStep(s: seq<string>, keep: set<string>)
    requires s != []
    ensures TwinIn(s, keep) <==> TwinIn(s[1..], keep) || (s[0] in keep && s[0] in s[1..])
  {
    var rest := s[1..];
    assert forall k :: 0 <= k < |rest| ==> rest[k] == s[k + 1];
    if TwinIn(rest, keep) {
      var i, j :| 0 <= i < j < |rest| && rest[i] == rest[j] && rest[i] in keep;
      assert s[i + 1] == s[j + 1];
    }
    if s[0] in keep && s[0] in rest {
      var j :| 0 <= j < |rest| && rest[j] == s[0];
      assert s[0] == s[j + 1];
    }
    if TwinIn(s, keep) {
      var i, j :| 0 <= i < j < |s| && s[i] == s[j] && s[i] in keep;
      if i > 0 {
        assert rest[i - 1] == rest[j - 1];
      } else {
        assert s[0] == rest[j - 1];
      }
    }
  }

  lemma {:induction false} BlankNotKept(s: seq<string>, keep: set<string>)
    requires "" !in keep
    ensures Restrict(Without(s, ""), keep) == Restrict(s, keep)
  {
    if s != [] {
      BlankNotKept(s[1..], keep);
    }
  }

  /** Normalising again changes nothing exactly when no open terminal is listed as running under two paddings. */
  lemma NormalizeIdempotent(s: StoredState)
    ensures Renormalize(Normalize(s)) == Normalize(s) <==> !PaddedTwins(s.running, s.terminalIds)
  {
    NormalizeSettles(s);
    SettledFixed(Normalize(s));
    RunningTwins(s.running, s.terminalIds);
  }

  /** One open terminal stored as running under two paddings is listed twice, and once after another pass. */
  lemma PaddedTwinsExist()
    ensures exists s :: Renormalize(Normalize(s)) != Normalize(s)
  {
    hide *;
    var view := View(ChatPage, false, Drawer, Both, TerminalTab, 280.0);
    var s: StoredState := ThreadState(view, ["a"], map[], map[], map[], map[], ["a", "a "], "a", [], "");
    TwinsOfA();
    NormalizeIdempotent(s);
  }

  lemma TwinsOfA()
    ensures PaddedTwins(["a", "a "], ["a"])
  {
    PaddedTrims();
    assert IdsOk(["a"]);
    NormalizeIdsOk(["a"]);
    hide NormalizeIds, Trim;
    var a, b := "a", "a ";
    assert a in ["a", "a "] && b in ["a", "a "] && a != b && Trim(a) == Trim(b) && Trim(a) in NormalizeIds(["a"]);
  }

  lemma PaddedTrims()
    ensures Trim("a ") == "a" && Trim("a") == "a"
  {
    assert ("a ")[..1] == "a";
    TrimIsTrimmed("a");
  }

  lemma RunningTwins(running: seq<string>, stored: seq<string>)
    ensures NoDup(NormalizeRunning(running, NormalizeIds(stored))) <==> !PaddedTwins(running, stored)
  {
    var trimmed, keep := TrimAll(Dedup(running)), ToSet(NormalizeIds(stored));
    NormalizeIdsOk(stored);
    assert "" !in keep;
    BlankNotKept(trimmed, keep);
    RestrictNoTwin(trimmed, keep);
    TwinsArePadded(running, stored);
  }

  lemma TrimAllAt(ids: seq<string>)
    ensures |TrimAll(ids)| == |ids| && forall i :: 0 <= i < |ids| ==> TrimAll(ids)[i] == Trim(ids[i])
  {
    hide Trim;
  }

  lemma ToSetHas(ids: seq<string>)
    ensures forall id :: id in ToSet(ids) <==> id in ids
  {
  }

  lemma NoDupAt(s: seq<string>, i: nat, j: nat)
    requires NoDup(s) && i < j < |s|
    ensures s[i] != s[j]
  {
  }

  lemma TwinsOf(s: seq<string>, keep: set<string>) returns (i: nat, j: nat)
    requires TwinIn(s, keep)
    ensures i < j < |s| && s[i] == s[j] && s[i] in keep
  {
    i, j :| i < j < |s| && s[i] == s[j] && s[i] in keep;
  }

  lemma PaddedIs(running: seq<string>, stored: seq<string>, a: string, b: string)
    requires a in running && b in running && a != b && Trim(a) == Trim(b) && Trim(a) in NormalizeIds(stored)
    ensures PaddedTwins(running, stored)
  {
    hide Trim, NormalizeIds;
  }

  lemma PaddedOf(running: seq<string>, stored: seq<string>) returns (a: string, b: string)
    requires PaddedTwins(running, stored)
    ensures a in running && b in running && a != b && Trim(a) == Trim(b) && Trim(a) in NormalizeIds(stored)
  {
    hide Trim, NormalizeIds;
    a, b :| a in running && b in running && a != b && Trim(a) == Trim(b) && Trim(a) in NormalizeIds(stored);
  }

  lemma TwinsArePadded(running: seq<string>, stored: seq<string>)
    ensures TwinIn(TrimAll(Dedup(running)), ToSet(NormalizeIds(stored))) <==> PaddedTwins(running, stored)
  {
    hide *;
    var once, ids := Dedup(running), NormalizeIds(stored);
    var trimmed := TrimAll(once);
    TrimAllAt(once);
    ToSetHas(ids);
    if TwinIn(trimmed, ToSet(ids)) {
      var i, j := TwinsOf(trimmed, ToSet(ids));
      NoDupAt(once, i, j);
      PaddedIs(running, stored, once[i], once[j]);
    }
    if PaddedTwins(running, stored) {
      var a, b := PaddedOf(running, stored);
      var i :| 0 <= i < |once| && once[i] == a;
      var j :| 0 <= j < |once| && once[j] == b;
      TwinsAt(trimmed, ToSet(ids), i, j);
    }
  }

  lemma TwinsAt(s: seq<string>, keep: set<string>, i: nat, j: nat)
    requires i < |s| && j < |s| && i != j && s[i] == s[j] && s[i] in keep
    ensures TwinIn(s, keep)
  {
    if i < j {
      assert s[i] == s[j];
    } else {
      assert s[j] == s[i];
    }
  }
}
