/** The store of terminal states by thread, and the one opening that needs its target open. */
module TerminalStore {
  import opened Strings
  import opened Sequences
  import opened UniqueNames
  import opened PaneTree
  import opened PaneUpdate
  import opened TerminalGroups
  import opened TerminalGroupsStable
  import opened TerminalState
  import opened TerminalActions
  import opened TerminalRuns
  import opened TerminalInvariant

  // ----- a tab beside a closed target -----

  /** A terminal no group shows gets a group of its own behind the others. */
  lemma StrayGetsGroup(s: State, id: string)
    requires RunInv(s) && Fresh(s, id)
    ensures var groupId := UniqueGroupId(FallbackGroupId(id), GroupIds(s.groups));
            NormalizeGroups(StoredAll(s.groups), s.terminalIds + [id]) == s.groups + [NewGroup(groupId, id)]
  {
    hide RunInv, Partition, AllFit, Terminals, GroupOk, Covered, Separate, AllOk, Renormalize, UniqueGroupId, AddGroups;
    Parts(s);
    IdsAreOk(s);
    IdsGrow(s.terminalIds, id);
    var valid, more := ToSet(s.terminalIds), ToSet(s.terminalIds + [id]);
    GroupsGrow(s.groups, valid, more);
    AllOkFixed(s.groups, more);
    AddTidyGroups(s.groups, more);
    var acc := Repair(s.groups, valid, GroupIds(s.groups));
    assert AddGroups(StoredAll(s.groups), more) == acc;
    NothingToFill(acc, s.terminalIds);
    assert (s.terminalIds + [id])[..|s.terminalIds + [id]| - 1] == s.terminalIds;
  }

  lemma IdsAreOk(s: State)
    requires RunInv(s)
    ensures IdsOk(s.terminalIds)
  {
  }

  lemma AllOkFixed(gs: seq<Group>, valid: set<string>)
    requires AllOk(gs, valid)
    ensures forall i :: 0 <= i < |gs| ==> TidyGroup(gs[i], valid)
    ensures SettleAll(gs, valid) == gs
  {
    forall i | 0 <= i < |gs|
      ensures TidyGroup(gs[i], valid) && Settle(gs[i], valid) == gs[i]
    {
      SettledIsFixed(gs[i], valid);
    }
  }

  /** The state a tab on a closed target leads to: the terminal is active, but outside the active group. */
  lemma StrayTab(s: State, groupId: string, id: string)
    requires RunInv(s) && Fresh(s, id) && groupId in GroupIds(s.groups)
    ensures !RunInv(Renormalize(Opened(s, id, s.groups, groupId)))
  {
    var c := Opened(s, id, s.groups, groupId);
    var r := Renormalize(c);
    hide Terminals, Partition, Covered, Separate, AllFit, NormalizeGroups, Normalize, UniqueGroupId, IdsOk, SyncGroups, Faces;
    IdsAreOk(s);
    IdsGrow(s.terminalIds, id);
    NormalizeIdsOk(c.terminalIds);
    StrayGetsGroup(s, id);
    NormalizeGroupsPartition(StoredAll(s.groups), c.terminalIds);
    var newId := UniqueGroupId(FallbackGroupId(id), GroupIds(s.groups));
    var groups := s.groups + [NewGroup(newId, id)];
    assert groupId in GroupIds(groups) by {
      var i :| 0 <= i < |s.groups| && s.groups[i].id == groupId;
      assert groups[i].id == groupId;
    }
    SyncKeepsFaces(groups, groupId, id, ToSet(c.terminalIds));
    StrayParts(c, groups);
    NotShownElsewhere(s, groupId, id, newId);
    SameFacesFit(r.groups, groups);
  }

  lemma StrayParts(c: State, groups: seq<Group>)
    requires NormalizeIds(c.terminalIds) == c.terminalIds && c.activeTerminalId in c.terminalIds
    requires NormalizeGroups(StoredAll(c.groups), c.terminalIds) == groups && c.activeGroupId in GroupIds(groups)
    ensures var r := Renormalize(c);
            && r.activeTerminalId == c.activeTerminalId && r.activeGroupId == c.activeGroupId
            && r.groups == SyncGroups(groups, c.activeGroupId, c.activeTerminalId)
  {
    hide NormalizeGroups, NormalizeIds, SyncGroups, EnsureLabels, NormalizeTexts, KeepOpen, NormalizeRunning, GroupIds;
  }

  lemma NotShownElsewhere(s: State, groupId: string, id: string, newId: string)
    requires RunInv(s) && Fresh(s, id) && groupId in GroupIds(s.groups) && newId !in GroupIds(s.groups)
    ensures !ActiveShown(s.groups + [NewGroup(newId, id)], groupId, id)
  {
    forall i | 0 <= i < |s.groups|
      ensures id !in Shown(s.groups[i])
    {
      ShownIsOpen(s, i);
    }
  }

  /**
   * Opening a tab keeps the invariant exactly when its target is open or the active group is
   * full: on a closed target the new terminal becomes active outside the active group.
   */
  lemma TabNeedsOpenTarget(s: State, target: string, id: string)
    requires RunInv(s) && Fresh(s, id)
    ensures RunInv(OpenTab(s, target, id)) <==>
            target in s.terminalIds
            || |Shown(s.groups[GroupIndex(s.groups, s.activeGroupId)])| >= MAX_TERMINALS_PER_GROUP
  {
    hide RunInv, Terminals, Renormalize;
    Parts(s);
    ActiveIndex(s);
    TrimIsTrimmed(id);
    if target in s.terminalIds {
      OpenTabKeeps(s, target, id);
    } else {
      FreshIsNowhere(s, target);
      var b := GroupIndex(s.groups, s.activeGroupId);
      ShownIsOpen(s, b);
      assert AddTabToGroup(s.groups[b], target, id) == s.groups[b] by {
        UpdateFinds(s.groups[b].layout, target, AddTab(id), ToSet(s.terminalIds));
      }
      assert s.groups[b := s.groups[b]] == s.groups;
      assert s.groups[b].id in GroupIds(s.groups);
      StrayTab(s, s.groups[b].id, id);
    }
  }

  /** Opening a tab on a terminal that is not open breaks the invariant of the default state. */
  lemma StrayTabBreaksDefault()
    ensures RunInv(DefaultState()) && !RunInv(OpenTab(DefaultState(), "elsewhere", "fresh"))
  {
    hide *;
    DefaultRuns();
    DefaultFacts();
    TabNeedsOpenTarget(DefaultState(), "elsewhere", "fresh");
  }

  lemma DefaultIsFresh()
    ensures Fresh(DefaultState(), "fresh") && "elsewhere" !in DefaultState().terminalIds
  {
    assert Clean("fresh");
  }

  lemma DefaultPlace()
    ensures var s := DefaultState();
            GroupIndex(s.groups, s.activeGroupId) == 0 && |s.groups| == 1 && |Shown(s.groups[0])| < MAX_TERMINALS_PER_GROUP
  {
    var id, s := DEFAULT_TERMINAL_ID, DefaultState();
    assert Clean(id);
    NewGroupOk(FallbackGroupId(id), id, {id});
    NewGroupOk(id, id, {id});
    hide Shown;
    assert s.groups == [NewGroup(FallbackGroupId(id), id)];
  }

  lemma DefaultFacts()
    ensures var s := DefaultState();
            && Fresh(s, "fresh") && "elsewhere" !in s.terminalIds && GroupIndex(s.groups, s.activeGroupId) == 0
            && |s.groups| == 1 && |Shown(s.groups[0])| < MAX_TERMINALS_PER_GROUP
  {
    hide *;
    DefaultIsFresh();
    DefaultPlace();
  }

  lemma DefaultRuns()
    ensures RunInv(DefaultState())
  {
    DefaultKeeps(DefaultState().view);
  }

  // ----- the store -----

  class Store {
    var states: map<string, State>

    /** Only states of the invariant are kept, never the default one, and none for the empty thread id. */
    ghost predicate Valid()
      reads this
    {
      "" !in states && forall t <- states :: RunInv(states[t]) && states[t] != DefaultState()
    }

    function Select(threadId: string): State
      reads this
    {
      if threadId in states then states[threadId] else DefaultState()
    }

    constructor ()
      ensures Valid() && states == map[]
    {
      states := map[];
    }

    /** updateTerminalStateByThreadId with the transition of an action. */
    method Apply(threadId: string, a: Action)
      requires Valid() && Allowed(Select(threadId), a)
      modifies this
      ensures Valid()
      ensures Select(threadId) == if threadId == "" then DefaultState() else Step(old(Select(threadId)), a)
      ensures forall t :: t != threadId ==> Select(t) == old(Select(t)) && (t in states <==> t in old(states))
    {
      hide RunInv, Step, Renormalize, DefaultState, Allowed;
      if threadId == "" {
        return;
      }
      var current := Select(threadId);
      var next := Step(current, a);
      DefaultRuns();
      StepKeeps(current, a);
      Parts(next);
      if next == current {
        return;
      }
      if Renormalize(next) == DefaultState() {
        states := states - {threadId};
        return;
      }
      states := states[threadId := next];
    }

    /** clearTerminalState */
    method Clear(threadId: string)
      requires Valid()
      modifies this
      ensures Valid() && states == old(states) - {threadId}
    {
      states := states - {threadId};
    }

    /** removeOrphanedTerminalStates */
    method RemoveOrphans(activeThreadIds: set<string>)
      requires Valid()
      modifies this
      ensures Valid()
      ensures states == map t | t in old(states) && t in activeThreadIds :: old(states)[t]
    {
      hide RunInv, DefaultState;
      var orphaned := states.Keys - activeThreadIds;
      var next := states;
      while orphaned != {}
        invariant orphaned == next.Keys - activeThreadIds
        invariant forall t <- next :: t in old(states) && next[t] == old(states)[t]
        invariant forall t <- old(states) :: t in activeThreadIds ==> t in next
      {
        var id :| id in orphaned;
        next := next - {id};
        orphaned := orphaned - {id};
      }
      assert next.Keys - activeThreadIds == {};
      forall t | t in next
        ensures t in activeThreadIds
      {
        assert t !in next.Keys - activeThreadIds;
      }
      states := next;
    }
  }
}
