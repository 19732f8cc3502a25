/** Terminal groups, and the repair of stored groups into a partition of the open terminals. */
module TerminalGroups {
  import opened Strings
  import opened Sequences
  import opened Wrappers
  import opened UniqueNames
  import opened PaneTree
  import opened PaneNormal

  datatype Group = Group(id: string, activeTerminalId: string, layout: Node)

  /** A stored group: the layout may be missing, and old records list plain terminal ids instead. */
  datatype RawGroup = RawGroup(id: string, activeTerminalId: string, layout: Option<Node>, terminalIds: seq<string>)

  function Stored(g: Group): RawGroup {
    RawGroup(g.id, g.activeTerminalId, Some(g.layout), [])
  }

  function StoredAll(gs: seq<Group>): (rs: seq<RawGroup>)
    ensures |rs| == |gs| && forall i :: 0 <= i < |gs| ==> rs[i] == Stored(gs[i])
  {
    seq(|gs|, i requires 0 <= i < |gs| => Stored(gs[i]))
  }

  function FallbackGroupId(terminalId: string): string {
    "group-" + terminalId
  }

  function NewGroup(id: string, terminalId: string): Group {
    Group(id, terminalId, NewLeaf(terminalId))
  }

  /** The terminals a group shows. */
  function Shown(g: Group): seq<string> {
    Terminals(g.layout)
  }

  // ----- one group -----

  function LegacyLayout(ids: seq<string>): Node {
    if |ids| <= 1 then NewLeaf(if ids == [] then DEFAULT_TERMINAL_ID else ids[0])
    else Split("split-" + ids[0], Horizontal, seq(|ids|, i requires 0 <= i < |ids| => NewLeaf(ids[i])),
               seq(|ids|, _ => 1.0))
  }

  /** normalizeTerminalPaneGroup */
  function NormalizePaneGroup(raw: RawGroup, valid: set<string>): Option<Group> {
    var legacyIds := Restrict(Dedup(Without(TrimAll(raw.terminalIds), "")), valid);
    var stored := if raw.layout.Some? then raw.layout
                  else if legacyIds != [] then Some(LegacyLayout(legacyIds)) else None;
    if stored.None? then None
    else
      var layout := Sanitize(stored.value, valid);
      if layout.None? then None
      else
        var ids := Terminals(layout.value);
        var active := if Trim(raw.activeTerminalId) in ids then Trim(raw.activeTerminalId)
                      else if ids != [] then ids[0] else DEFAULT_TERMINAL_ID;
        var id := Trim(raw.id);
        Some(Group(if id != "" then id else FallbackGroupId(active), active, layout.value))
  }

  predicate GroupOk(g: Group, valid: set<string>) {
    Clean(g.id) && Normal(g.layout, valid) && g.activeTerminalId in Shown(g)
  }

  lemma PaneGroupOk(raw: RawGroup, valid: set<string>)
    ensures var r := NormalizePaneGroup(raw, valid);
            r.Some? ==> GroupOk(r.value, valid) && ToSet(Shown(r.value)) <= valid
  {
    var r := NormalizePaneGroup(raw, valid);
    if r.Some? {
      var legacyIds := Restrict(Dedup(Without(TrimAll(raw.terminalIds), "")), valid);
      var stored := if raw.layout.Some? then raw.layout.value else LegacyLayout(legacyIds);
      SanitizeIsNormal(stored, valid);
      NormalIsTidy(r.value.layout, valid);
      TidyTerminals(r.value.layout, valid);
      TrimIsTrimmed(raw.id);
      var k :| 0 <= k < |Shown(r.value)| && Shown(r.value)[k] == r.value.activeTerminalId;
      PrefixIsClean("group-", r.value.activeTerminalId);
    }
  }

  // ----- all groups -----

  datatype Repair = Repair(groups: seq<Group>, placed: set<string>, used: set<string>)

  /** One stored group: keep what is still unassigned, under an id not used yet. */
  function AddGroup(acc: Repair, raw: RawGroup, valid: set<string>): Repair {
    var first := NormalizePaneGroup(raw, valid);
    if first.None? then acc
    else
      var shown := Shown(first.value);
      var open := Restrict(shown, ToSet(shown) - acc.placed);
      if open == [] then acc
      else
        var second := NormalizePaneGroup(Stored(first.value), ToSet(open));
        if second.None? then acc
        else
          var g := second.value;
          var base := if Trim(g.id) != "" then Trim(g.id) else FallbackGroupId(open[0]);
          var id := UniqueGroupId(base, acc.used);
          Repair(acc.groups + [g.(id := id)], acc.placed + ToSet(Shown(g)), acc.used + {id})
  }

  function AddGroups(raws: seq<RawGroup>, valid: set<string>): Repair {
    if raws == [] then Repair([], {}, {})
    else AddGroup(AddGroups(raws[..|raws| - 1], valid), raws[|raws| - 1], valid)
  }

  /** One listed terminal: a terminal no group shows gets a group of its own. */
  function FillGroup(acc: Repair, terminalId: string): Repair {
    if terminalId in acc.placed then acc
    else
      var id := UniqueGroupId(FallbackGroupId(terminalId), acc.used);
      Repair(acc.groups + [NewGroup(id, terminalId)], acc.placed, acc.used + {id})
  }

  function FillGroups(acc: Repair, ids: seq<string>): Repair {
    if ids == [] then acc else FillGroup(FillGroups(acc, ids[..|ids| - 1]), ids[|ids| - 1])
  }

  function NormalizeGroups(raws: seq<RawGroup>, ids: seq<string>): seq<Group> {
    var r := FillGroups(AddGroups(raws, ToSet(ids)), ids).groups;
    if r == [] then [NewGroup(FallbackGroupId(DEFAULT_TERMINAL_ID), DEFAULT_TERMINAL_ID)] else r
  }

  /** normalizeTerminalGroups, with the array and the two sets it fills. */
  method NormalizeTerminalGroups(raws: seq<RawGroup>, ids: seq<string>) returns (nextGroups: seq<Group>)
    ensures nextGroups == NormalizeGroups(raws, ids)
  {
    nextGroups := [];
    var placed: set<string>, used: set<string> := {}, {};
    var valid := ToSet(ids);
    for index := 0 to |raws|
      invariant Repair(nextGroups, placed, used) == AddGroups(raws[..index], valid)
    {
      assert raws[..index + 1][..index] == raws[..index];
      assert AddGroups(raws[..index + 1], valid) == AddGroup(Repair(nextGroups, placed, used), raws[index], valid);
      var first := NormalizePaneGroup(raws[index], valid);
      if first.Some? {
        var shown := Shown(first.value);
        var open := Restrict(shown, ToSet(shown) - placed);
        if open != [] {
          var second := NormalizePaneGroup(Stored(first.value), ToSet(open));
          if second.Some? {
            var base := if Trim(second.value.id) != "" then Trim(second.value.id) else FallbackGroupId(open[0]);
            var id, usedAfter := AssignUniqueGroupId(base, used);
            nextGroups := nextGroups + [second.value.(id := id)];
            placed, used := placed + ToSet(Shown(second.value)), usedAfter;
          }
        }
      }
    }
    assert raws[..|raws|] == raws;
    ghost var acc := Repair(nextGroups, placed, used);
    for index := 0 to |ids|
      invariant Repair(nextGroups, placed, used) == FillGroups(acc, ids[..index])
    {
      assert ids[..index + 1][..index] == ids[..index];
      if ids[index] !in placed {
        var id, usedAfter := AssignUniqueGroupId(FallbackGroupId(ids[index]), used);
        nextGroups := nextGroups + [NewGroup(id, ids[index])];
        used := usedAfter;
      }
    }
    assert ids[..|ids|] == ids;
    if nextGroups == [] {
      nextGroups := [NewGroup(FallbackGroupId(DEFAULT_TERMINAL_ID), DEFAULT_TERMINAL_ID)];
    }
  }

  // ----- the result is a partition -----

  function Covered(gs: seq<Group>): set<string> {
    set i, t | 0 <= i < |gs| && t in Shown(gs[i]) :: t
  }

  function GroupIds(gs: seq<Group>): set<string> {
    set i | 0 <= i < |gs| :: gs[i].id
  }

  predicate Apart(g: Group, h: Group) {
    g.id != h.id && forall t <- Shown(g) :: t !in Shown(h)
  }

  predicate Separate(gs: seq<Group>) {
    forall i, j :: 0 <= i < j < |gs| ==> Apart(gs[i], gs[j])
  }

  predicate AllOk(gs: seq<Group>, valid: set<string>) {
    forall i :: 0 <= i < |gs| ==> GroupOk(gs[i], valid)
  }

  /** Well-formed groups with distinct ids that divide the valid terminals among them. */
  predicate Partition(gs: seq<Group>, valid: set<string>) {
    gs != [] && AllOk(gs, valid) && Separate(gs) && Covered(gs) == valid
  }

  predicate RepairOk(acc: Repair, valid: set<string>) {
    && AllOk(acc.groups, valid) && Separate(acc.groups)
    && acc.placed == Covered(acc.groups) && acc.used == GroupIds(acc.groups)
  }

  lemma CoveredSnoc(gs: seq<Group>, g: Group)
    ensures Covered(gs + [g]) == Covered(gs) + ToSet(Shown(g))
    ensures GroupIds(gs + [g]) == GroupIds(gs) + {g.id}
  {
    var more := gs + [g];
    forall t | t in Covered(gs) + ToSet(Shown(g))
      ensures t in Covered(more)
    {
      if t in Covered(gs) {
        var i :| 0 <= i < |gs| && t in Shown(gs[i]);
        assert more[i] == gs[i];
      } else {
        assert more[|gs|] == g;
      }
    }
    forall x | x in GroupIds(gs) + {g.id}
      ensures x in GroupIds(more)
    {
      if x in GroupIds(gs) {
        var i :| 0 <= i < |gs| && x == gs[i].id;
        assert more[i] == gs[i];
      } else {
        assert more[|gs|] == g;
      }
    }
  }

  lemma RepairSnoc(acc: Repair, g: Group, valid: set<string>)
    requires RepairOk(acc, valid) && GroupOk(g, valid)
    requires g.id !in acc.used && forall t <- Shown(g) :: t !in acc.placed
    ensures RepairOk(Repair(acc.groups + [g], acc.placed + ToSet(Shown(g)), acc.used + {g.id}), valid)
  {
    CoveredSnoc(acc.groups, g);
    var more := acc.groups + [g];
    forall i, j | 0 <= i < j < |more|
      ensures Apart(more[i], more[j])
    {
      if j == |acc.groups| {
        assert acc.groups[i].id in GroupIds(acc.groups);
        assert forall t <- Shown(acc.groups[i]) :: t in Covered(acc.groups);
      }
    }
  }

  lemma AddGroupOk(acc: Repair, raw: RawGroup, valid: set<string>)
    requires RepairOk(acc, valid)
    ensures RepairOk(AddGroup(acc, raw, valid), valid)
  {
    hide Normal, NormalizePaneGroup, Terminals, UniqueGroupId, Trim, Covered, GroupIds, Separate;
    var first := NormalizePaneGroup(raw, valid);
    if first.Some? {
      PaneGroupOk(raw, valid);
      var shown := Shown(first.value);
      var open := Restrict(shown, ToSet(shown) - acc.placed);
      var second := NormalizePaneGroup(Stored(first.value), ToSet(open));
      if open != [] && second.Some? {
        PaneGroupOk(Stored(first.value), ToSet(open));
        var g := second.value;
        TrimIsTrimmed(g.id);
        NormalMonotone(g.layout, ToSet(open), valid);
        forall t | t in Shown(g)
          ensures t !in acc.placed
        {
          assert t in ToSet(Shown(g)) && t in open;
        }
        RepairSnoc(acc, g.(id := UniqueGroupId(g.id, acc.used)), valid);
      }
    }
  }

  lemma {:induction false} AddGroupsOk(raws: seq<RawGroup>, valid: set<string>)
    ensures RepairOk(AddGroups(raws, valid), valid)
  {
    if raws != [] {
      AddGroupsOk(raws[..|raws| - 1], valid);
      AddGroupOk(AddGroups(raws[..|raws| - 1], valid), raws[|raws| - 1], valid);
    }
  }

  lemma NewGroupOk(id: string, terminalId: string, valid: set<string>)
    requires Clean(id) && Clean(terminalId) && terminalId in valid
    ensures GroupOk(NewGroup(id, terminalId), valid) && Shown(NewGroup(id, terminalId)) == [terminalId]
    ensures Clean(FallbackGroupId(terminalId))
  {
    PrefixIsClean("pane-", terminalId);
    PrefixIsClean("group-", terminalId);
    NormalLeafFixed(NewLeaf(terminalId), valid);
  }

  lemma FillNothing(acc: Repair, ids: seq<string>, valid: set<string>)
    requires RepairOk(acc, valid) && ids == []
    ensures FillGroups(acc, ids) == acc && acc.placed == Covered(acc.groups) && acc.placed + ToSet(ids) == acc.placed
    ensures acc.(placed := Covered(acc.groups)) == acc
  {
  }

  lemma FrontOk(ids: seq<string>, valid: set<string>)
    requires ids != [] && NoDup(ids) && AllClean(ids) && ToSet(ids) <= valid
    ensures var front, last := ids[..|ids| - 1], ids[|ids| - 1];
            && NoDup(front) && AllClean(front) && ToSet(front) <= valid
            && Clean(last) && last in valid && last !in front && last !in ToSet(front)
            && ToSet(ids) == ToSet(front) + {last}
  {
    hide Clean;
    assert ids == ids[..|ids| - 1] + [ids[|ids| - 1]];
    assert ids[|ids| - 1] in ToSet(ids);
  }

  lemma FillStep(acc: Repair, ids: seq<string>)
    requires ids != []
    ensures var front, last := ids[..|ids| - 1], ids[|ids| - 1];
            var r := FillGroups(acc, front);
            && FillGroups(acc, front).placed == acc.placed
            && FillGroups(acc, ids) ==
               if last in acc.placed then r
               else
                 var id := UniqueGroupId(FallbackGroupId(last), r.used);
                 Repair(r.groups + [NewGroup(id, last)], r.placed, r.used + {id})
  {
    hide UniqueGroupId, NewGroup, FallbackGroupId;
    FillKeepsPlaced(acc, ids[..|ids| - 1]);
  }

  lemma {:induction false} FillKeepsPlaced(acc: Repair, ids: seq<string>)
    ensures FillGroups(acc, ids).placed == acc.placed
  {
    hide UniqueGroupId, NewGroup, FallbackGroupId;
    if ids != [] {
      FillKeepsPlaced(acc, ids[..|ids| - 1]);
    }
  }

  lemma PlacedAlready(placed: set<string>, ids: seq<string>)
    requires ids != [] && ids[|ids| - 1] in placed
    ensures placed + ToSet(ids) == placed + ToSet(ids[..|ids| - 1])
  {
    assert ids == ids[..|ids| - 1] + [ids[|ids| - 1]];
  }

  lemma PlacedNow(placed: set<string>, ids: seq<string>)
    requires ids != []
    ensures placed + ToSet(ids) == placed + ToSet(ids[..|ids| - 1]) + {ids[|ids| - 1]}
  {
    assert ids == ids[..|ids| - 1] + [ids[|ids| - 1]];
  }

  /** A new group for a terminal no group shows yet. */
  lemma FilledGroup(acc: Repair, last: string, id: string, valid: set<string>)
    requires RepairOk(acc, valid) && Clean(last) && last in valid && last !in acc.placed
    requires id == UniqueGroupId(FallbackGroupId(last), acc.used)
    ensures var groups := acc.groups + [NewGroup(id, last)];
            && RepairOk(Repair(groups, Covered(groups), acc.used + {id}), valid) && Covered(groups) == acc.placed + {last}
  {
    hide Normal, Terminals, Covered, GroupIds, Separate, Trim;
    NewGroupOk(FallbackGroupId(last), last, valid) by {
      PrefixIsClean("group-", last);
    }
    NewGroupOk(id, last, valid);
    RepairSnoc(acc, NewGroup(id, last), valid);
  }

  /** Filling keeps the groups apart and covers the listed terminals one by one. */
  lemma {:induction false} FillGroupsOk(acc: Repair, ids: seq<string>, valid: set<string>)
    requires RepairOk(acc, valid) && NoDup(ids) && AllClean(ids) && ToSet(ids) <= valid
    ensures var r := FillGroups(acc, ids);
            && RepairOk(r.(placed := Covered(r.groups)), valid)
            && r.placed == acc.placed && Covered(r.groups) == acc.placed + ToSet(ids)
  {
    hide *;
    if ids == [] {
      FillNothing(acc, ids, valid);
    } else {
      var front, last := ids[..|ids| - 1], ids[|ids| - 1];
      FrontOk(ids, valid);
      FillGroupsOk(acc, front, valid);
      FillStep(acc, ids);
      var r := FillGroups(acc, front);
      if last in acc.placed {
        PlacedAlready(acc.placed, ids);
      } else {
        var id := UniqueGroupId(FallbackGroupId(last), r.used);
        FilledGroup(r.(placed := Covered(r.groups)), last, id, valid);
        PlacedNow(acc.placed, ids);
      }
    }
  }

  /** Whatever is stored, the repaired groups divide the open terminals among them. */
  lemma NormalizeGroupsPartition(raws: seq<RawGroup>, ids: seq<string>)
    requires ids != [] && NoDup(ids) && AllClean(ids)
    ensures Partition(NormalizeGroups(raws, ids), ToSet(ids))
  {
    var valid := ToSet(ids);
    AddGroupsOk(raws, valid);
    var acc := AddGroups(raws, valid);
    FillGroupsOk(acc, ids, valid);
    var r := FillGroups(acc, ids);
    AllShownValid(acc.groups, valid);
    assert ids[0] in Covered(r.groups);
  }

  lemma AllShownValid(gs: seq<Group>, valid: set<string>)
    requires AllOk(gs, valid)
    ensures Covered(gs) <= valid
  {
    forall i | 0 <= i < |gs|
      ensures ToSet(Shown(gs[i])) <= valid
    {
      NormalIsTidy(gs[i].layout, valid);
      TidyTerminals(gs[i].layout, valid);
    }
  }
}
