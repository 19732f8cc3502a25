/** What the normaliser keeps of a stored state: which terminals, in which groups, drawn how. */
module TerminalRepair {
  import opened Strings
  import opened Sequences
  import opened Wrappers
  import opened UniqueNames
  import opened PaneTree
  import opened PaneNormal
  import opened PaneGeometry
  import opened PaneTabs
  import opened PaneUpdate
  import opened TerminalGroups
  import opened TerminalGroupsStable
  import opened TerminalState

  // ----- what a stored group claims -----

  /** The open terminals of a stored group: of its layout, or of its list when it has none. */
  function Claim(raw: RawGroup, valid: set<string>): seq<string> {
    if raw.layout.Some? then ValidTerminals(raw.layout.value, valid)
    else Restrict(Dedup(Without(TrimAll(raw.terminalIds), "")), valid)
  }

  lemma {:induction false} WithoutBlank(s: seq<string>)
    ensures Dedup(Without(s, "")) == Without(Dedup(s), "")
  {
    if s != [] {
      var front, last := s[..|s| - 1], s[|s| - 1];
      assert s == front + [last];
      WithoutBlank(front);
      WithoutConcat(front, [last], "");
      assert [last][1..] == [];
      assert Without([last], "") == if last == "" then [] else [last];
      WithoutConcat(Dedup(front), [last], "");
      if last == "" {
        assert Without(s, "") == Without(front, "");
      } else {
        assert (Without(front, "") + [last])[..|Without(front, "")|] == Without(front, "");
      }
    }
  }

  lemma LegacyClaim(raw: RawGroup, valid: set<string>)
    requires raw.layout.None?
    ensures KeepsListed(Claim(raw, valid), raw.terminalIds, valid) && AllClean(Claim(raw, valid))
  {
    WithoutBlank(TrimAll(raw.terminalIds));
    KeptIsListed(raw.terminalIds, valid);
    CleanIdsAreClean(raw.terminalIds);
    var ids := Claim(raw, valid);
    forall i | 0 <= i < |ids|
      ensures Clean(ids[i])
    {
      assert ids[i] in CleanIds(raw.terminalIds);
    }
  }

  lemma {:induction false} SinglesShow(ids: seq<string>, leaves: seq<Node>, valid: set<string>)
    requires |leaves| == |ids| && forall i :: 0 <= i < |ids| ==> leaves[i] == NewLeaf(ids[i])
    requires AllClean(ids) && forall id <- ids :: id in valid
    ensures AllValidTerminals(leaves, valid) == ids && AllTerminals(leaves) == ids && forall c <- leaves :: Tidy(c, valid)
  {
    if ids != [] {
      SinglesShow(ids[1..], leaves[1..], valid);
      PrefixIsClean("pane-", ids[0]);
      NormalLeafFixed(leaves[0], valid);
      assert leaves == [leaves[0]] + leaves[1..] && ids == [ids[0]] + ids[1..];
    }
  }

  /** A group without a layout lays its terminals out one by one. */
  lemma LegacyShows(ids: seq<string>, valid: set<string>)
    requires ids != [] && AllClean(ids) && forall id <- ids :: id in valid
    ensures ValidTerminals(LegacyLayout(ids), valid) == ids && Tidy(LegacyLayout(ids), valid)
  {
    hide AllTerminals, Clean, AllClean;
    var leaves := seq(|ids|, i requires 0 <= i < |ids| => NewLeaf(ids[i]));
    SinglesShow(ids, leaves, valid);
    if |ids| == 1 {
      LegacyOneShows(ids, valid);
    }
  }

  lemma LegacyOneShows(ids: seq<string>, valid: set<string>)
    requires |ids| == 1 && AllClean(ids) && ids[0] in valid
    ensures ValidTerminals(NewLeaf(ids[0]), valid) == ids && Tidy(NewLeaf(ids[0]), valid)
  {
    var leaf := NewLeaf(ids[0]);
    assert ids == [ids[0]];
    SinglesShow(ids, [leaf], valid);
    assert leaf in [leaf];
    TidyTerminals(leaf, valid);
    AllTerminalsOne(leaf);
  }

  /** A repaired group shows exactly what it claims; its stored choice stands if it is shown, else the first is chosen. */
  lemma GroupShowsClaim(raw: RawGroup, valid: set<string>)
    ensures var r, claim := NormalizePaneGroup(raw, valid), Claim(raw, valid);
            && (r.None? <==> claim == [])
            && (r.Some? ==>
                  && Shown(r.value) == claim
                  && r.value.activeTerminalId == (if Trim(raw.activeTerminalId) in claim then Trim(raw.activeTerminalId) else claim[0])
                  && r.value.id == (if Trim(raw.id) != "" then Trim(raw.id) else "group-" + r.value.activeTerminalId))
  {
    hide Sanitize, ValidTerminals, LegacyLayout, Terminals, Trim, KeepsListed;
    var claim := Claim(raw, valid);
    if raw.layout.Some? {
      SanitizeKeepsOrder(raw.layout.value, valid);
      SanitizeShowsSome(raw.layout.value, valid);
    } else {
      LegacyClaim(raw, valid);
      if claim != [] {
        LegacyShows(claim, valid) by {
          assert forall id <- claim :: id in valid;
        }
        SanitizeKeepsOrder(LegacyLayout(claim), valid);
        SanitizeShowsSome(LegacyLayout(claim), valid);
      }
    }
  }

  lemma SanitizeShowsSome(node: Node, valid: set<string>)
    ensures var r := Sanitize(node, valid); r.Some? ==> Terminals(r.value) != []
  {
    SanitizeIsNormal(node, valid);
    var r := Sanitize(node, valid);
    if r.Some? {
      NormalIsTidy(r.value, valid);
      TidyTerminals(r.value, valid);
    }
  }

  // ----- every terminal goes to the first group that claims it -----

  lemma {:induction false} RestrictConcat(a: seq<string>, b: seq<string>, keep: set<string>)
    ensures Restrict(a + b, keep) == Restrict(a, keep) + Restrict(b, keep)
  {
    if a == [] {
      assert a + b == b;
    } else {
      assert (a + b)[1..] == a[1..] + b;
      RestrictConcat(a[1..], b, keep);
    }
  }

  lemma NothingListed(keep: set<string>)
    ensures Restrict(CleanIds([""]), keep) == []
  {
    CleanBlank();
  }

  /** Of a tidy tree, fewer valid terminals leave exactly those of its terminals. */
  lemma {:induction false} FewerTerminals(node: Node, valid: set<string>, keep: set<string>)
    requires Tidy(node, valid)
    ensures ValidTerminals(node, keep) == Restrict(Terminals(node), keep)
    decreases node, 0
  {
    match node
    case Leaf(_, _, _, _) =>
      NormalLeafFixed(node, valid);
      CleanIdsAreClean(node.terminalIds);
      NothingListed(keep);
    case Split(_, _, children, _) => FewerOfAll(children, valid, keep);
  }

  lemma {:induction false} FewerOfAll(nodes: seq<Node>, valid: set<string>, keep: set<string>)
    requires forall c <- nodes :: Tidy(c, valid)
    ensures AllValidTerminals(nodes, keep) == Restrict(AllTerminals(nodes), keep)
    decreases nodes, 0
  {
    hide ValidTerminals, Terminals, Restrict;
    if nodes == [] {
      NoneOfNone(keep);
    } else {
      FewerTerminals(nodes[0], valid, keep);
      FewerOfAll(nodes[1..], valid, keep);
      RestrictConcat(Terminals(nodes[0]), AllTerminals(nodes[1..]), keep);
    }
  }

  lemma NoneOfNone(keep: set<string>)
    ensures Restrict<string>([], keep) == []
  {
  }

  function Union(lists: seq<seq<string>>): set<string> {
    set i, t | 0 <= i < |lists| && t in lists[i] :: t
  }

  /** The lists the stored groups end up with: what each claims and no earlier one has; empty ones are dropped. */
  function Claims(raws: seq<RawGroup>, valid: set<string>): seq<seq<string>> {
    if raws == [] then []
    else
      var before := Claims(raws[..|raws| - 1], valid);
      var own := Restrict(Claim(raws[|raws| - 1], valid), valid - Union(before));
      before + if own == [] then [] else [own]
  }

  function ShownLists(gs: seq<Group>): (r: seq<seq<string>>)
    ensures |r| == |gs| && forall i :: 0 <= i < |gs| ==> r[i] == Shown(gs[i])
  {
    seq(|gs|, i requires 0 <= i < |gs| => Shown(gs[i]))
  }

  lemma UnionIsCovered(gs: seq<Group>)
    ensures Union(ShownLists(gs)) == Covered(gs)
  {
    hide Shown;
    var lists := ShownLists(gs);
    assert forall i :: 0 <= i < |gs| ==> lists[i] == Shown(gs[i]);
  }

  lemma ClaimIsOpen(raw: RawGroup, valid: set<string>)
    ensures forall t <- Claim(raw, valid) :: t in valid
  {
    GroupShowsClaim(raw, valid);
    PaneGroupOk(raw, valid);
    var r := NormalizePaneGroup(raw, valid);
    if r.Some? {
      assert forall t <- Shown(r.value) :: t in ToSet(Shown(r.value));
    }
  }

  lemma {:induction false} RestrictAlike(s: seq<string>, keep: set<string>, other: set<string>)
    requires forall t <- s :: t in keep <==> t in other
    ensures Restrict(s, keep) == Restrict(s, other)
  {
    if s != [] {
      RestrictAlike(s[1..], keep, other);
    }
  }

  lemma RestrictToOwn(s: seq<string>, keep: set<string>)
    ensures Restrict(s, ToSet(Restrict(s, keep))) == Restrict(s, keep)
    ensures s != [] && s[0] in keep ==> Restrict(s, keep) != [] && Restrict(s, keep)[0] == s[0]
  {
    RestrictAlike(s, ToSet(Restrict(s, keep)), keep);
  }

  lemma ListsSnoc(gs: seq<Group>, g: Group)
    ensures ShownLists(gs + [g]) == ShownLists(gs) + [Shown(g)]
  {
    hide Shown;
  }

  lemma Renamed(g: Group, id: string)
    ensures Shown(g.(id := id)) == Shown(g)
  {
  }

  lemma AddGroupIs(acc: Repair, raw: RawGroup, valid: set<string>)
    ensures var first, r := NormalizePaneGroup(raw, valid), AddGroup(acc, raw, valid);
            && (first.None? ==> r == acc)
            && (first.Some? ==>
                  var open := Restrict(Shown(first.value), ToSet(Shown(first.value)) - acc.placed);
                  var second := NormalizePaneGroup(Stored(first.value), ToSet(open));
                  && (open == [] || second.None? ==> r == acc)
                  && (open != [] && second.Some? ==>
                        && |r.groups| == |acc.groups| + 1 && r.groups[..|acc.groups|] == acc.groups
                        && r.groups[|acc.groups|] == second.value.(id := r.groups[|acc.groups|].id)))
  {
    hide NormalizePaneGroup, Shown, Restrict, UniqueGroupId, Trim;
  }

  /** Taking the choice over twice is choosing among what is left. */
  lemma SecondChoice(stored: string, claim: seq<string>, keep: set<string>, active: string)
    requires AllClean(claim) && Restrict(claim, keep) != []
    requires active == if Trim(stored) in claim then Trim(stored) else claim[0]
    ensures var own := Restrict(claim, keep);
            (if Trim(active) in own then Trim(active) else own[0]) == if Trim(stored) in own then Trim(stored) else own[0]
  {
    hide Trim, Restrict;
    TrimIsTrimmed(stored);
    TrimIsTrimmed(Trim(stored));
    TrimIsTrimmed(claim[0]);
    RestrictToOwn(claim, keep);
    assert claim[0] in claim;
    if claim[0] in Restrict(claim, keep) {
      assert claim[0] in keep;
    }
  }

  lemma ClaimIsClean(raw: RawGroup, valid: set<string>)
    requires NormalizePaneGroup(raw, valid).Some?
    ensures AllClean(Claim(raw, valid)) && Tidy(NormalizePaneGroup(raw, valid).value.layout, valid)
  {
    GroupShowsClaim(raw, valid);
    PaneGroupOk(raw, valid);
    var g := NormalizePaneGroup(raw, valid).value;
    NormalIsTidy(g.layout, valid);
    TidyTerminals(g.layout, valid);
  }

  lemma StoredClaim(g: Group, valid: set<string>, keep: set<string>)
    requires Tidy(g.layout, valid)
    ensures Claim(Stored(g), keep) == Restrict(Shown(g), keep) && Stored(g).activeTerminalId == g.activeTerminalId
  {
    FewerTerminals(g.layout, valid, keep);
  }

  /** A stored group joins with what is left of its claim, or not at all. */
  lemma AddGroupShows(acc: Repair, raw: RawGroup, valid: set<string>)
    requires RepairOk(acc, valid)
    ensures var own, r := Restrict(Claim(raw, valid), valid - Union(ShownLists(acc.groups))), AddGroup(acc, raw, valid);
            && ShownLists(r.groups) == ShownLists(acc.groups) + (if own == [] then [] else [own])
            && (own != [] ==>
                  && |r.groups| == |acc.groups| + 1 && r.groups[..|acc.groups|] == acc.groups
                  && r.groups[|acc.groups|].activeTerminalId == if Trim(raw.activeTerminalId) in own then Trim(raw.activeTerminalId) else own[0])
  {
    assert acc.placed == Covered(acc.groups);
    hide *;
    var claim, keep := Claim(raw, valid), valid - acc.placed;
    var own, lists := Restrict(claim, keep), ShownLists(acc.groups);
    UnionIsCovered(acc.groups);
    GroupShowsClaim(raw, valid);
    ClaimIsOpen(raw, valid);
    AddGroupIs(acc, raw, valid);
    assert lists + [] == lists;
    var first := NormalizePaneGroup(raw, valid);
    if first.None? {
      NoneOfNone(keep);
    } else {
      RestrictAlike(claim, ToSet(claim) - acc.placed, keep) by {
        InSet(claim);
      }
      if own != [] {
        ClaimIsClean(raw, valid);
        StoredClaim(first.value, valid, ToSet(own));
        RestrictToOwn(claim, keep);
        GroupShowsClaim(Stored(first.value), ToSet(own));
        SecondChoice(raw.activeTerminalId, claim, keep, first.value.activeTerminalId);
        var g, groups := NormalizePaneGroup(Stored(first.value), ToSet(own)).value, AddGroup(acc, raw, valid).groups;
        Renamed(g, groups[|acc.groups|].id);
        ListsSnoc(acc.groups, groups[|acc.groups|]);
        assert groups == acc.groups + [groups[|acc.groups|]];
      }
    }
  }

  lemma InSet(s: seq<string>)
    ensures forall t :: t in ToSet(s) <==> t in s
  {
  }

  lemma {:induction false} AddGroupsShow(raws: seq<RawGroup>, valid: set<string>)
    ensures ShownLists(AddGroups(raws, valid).groups) == Claims(raws, valid)
  {
    hide AddGroup, Claim, Restrict, Union, RepairOk;
    if raws != [] {
      var front := raws[..|raws| - 1];
      AddGroupsShow(front, valid);
      AddGroupsOk(front, valid);
      AddGroupShows(AddGroups(front, valid), raws[|raws| - 1], valid);
    }
  }

  // ----- the terminals no group claims -----

  /** One list to each terminal outside a set, in order. */
  function Singles(ids: seq<string>, placed: set<string>): seq<seq<string>> {
    if ids == [] then []
    else Singles(ids[..|ids| - 1], placed) + if ids[|ids| - 1] in placed then [] else [[ids[|ids| - 1]]]
  }

  lemma {:induction false} FillGroupsShow(acc: Repair, ids: seq<string>)
    requires AllClean(ids)
    ensures ShownLists(FillGroups(acc, ids).groups) == ShownLists(acc.groups) + Singles(ids, acc.placed)
  {
    hide UniqueGroupId, Shown, Clean;
    if ids == [] {
      assert ShownLists(acc.groups) + [] == ShownLists(acc.groups);
    } else {
      var front, last := ids[..|ids| - 1], ids[|ids| - 1];
      FillGroupsShow(acc, front);
      FillKeepsPlaced(acc, front);
      var r := FillGroups(acc, front);
      var id := UniqueGroupId(FallbackGroupId(last), r.used);
      SingleShows(id, last);
      ListsSnoc(r.groups, NewGroup(id, last));
      assert ShownLists(acc.groups) + Singles(front, acc.placed) + [[last]] == ShownLists(acc.groups) + (Singles(front, acc.placed) + [[last]]);
      assert Singles(front, acc.placed) + [] == Singles(front, acc.placed);
    }
  }

  lemma SingleShows(id: string, terminalId: string)
    requires Clean(terminalId)
    ensures Shown(NewGroup(id, terminalId)) == [terminalId]
  {
    PrefixIsClean("pane-", terminalId);
    NormalLeafFixed(NewLeaf(terminalId), {terminalId});
  }

  /**
   * The repaired groups show, in the stored order, what each stored group claims and none before it did, and then
   * every terminal no group claims in a group of its own.
   */
  lemma GroupsShowClaims(raws: seq<RawGroup>, ids: seq<string>)
    requires ids != [] && NoDup(ids) && AllClean(ids)
    ensures var claims := Claims(raws, ToSet(ids));
            ShownLists(NormalizeGroups(raws, ids)) == claims + Singles(ids, Union(claims))
  {
    var valid := ToSet(ids);
    AddGroupsShow(raws, valid);
    AddGroupsOk(raws, valid);
    var acc := AddGroups(raws, valid);
    UnionIsCovered(acc.groups);
    FillGroupsShow(acc, ids);
    NormalizeGroupsPartition(raws, ids);
    FillGroupsOk(acc, ids, valid);
    hide AddGroups, FillGroups, Shown, Claims, Singles, Covered, AllOk, Separate, GroupIds;
    assert ids[0] in valid;
    SomeGroups(FillGroups(acc, ids).groups, ids[0]);
  }

  lemma SomeGroups(gs: seq<Group>, t: string)
    requires t in Covered(gs)
    ensures gs != []
  {
  }

  // ----- the rest of the state -----

  /** The open terminals are those listed, each once and in the order of the list; of an empty list, the default one. */
  lemma IdsAreListed(ids: seq<string>)
    ensures var r := NormalizeIds(ids);
            && NoDup(r)
            && ((exists t :: t != "" && Listed(ids, t)) ==> InOrder(r, TrimAll(ids)) && forall t :: t in r <==> t != "" && Listed(ids, t))
            && ((forall t :: t != "" ==> !Listed(ids, t)) ==> r == ["default"])
  {
    hide *;
    CleanIsListed(ids);
    IdsAreClean(ids);
    EmptyOrNot(CleanIds(ids));
    NormalizeIdsOk(ids);
    NoDupOfIds(NormalizeIds(ids));
  }

  lemma NoDupOfIds(ids: seq<string>)
    requires IdsOk(ids)
    ensures NoDup(ids)
  {
    hide NoDup;
  }

  lemma EmptyOrNot(s: seq<string>)
    ensures s == [] <==> forall t :: t !in s
  {
    if s != [] {
      assert s[0] in s;
    }
  }

  lemma IdsAreClean(ids: seq<string>)
    ensures NormalizeIds(ids) == if CleanIds(ids) == [] then ["default"] else CleanIds(ids)
  {
    hide TrimAll, Dedup, Without;
    WithoutBlank(TrimAll(ids));
  }

  /** The open terminals that are listed as running. */
  lemma RunningIsListed(running: seq<string>, ids: seq<string>, t: string)
    requires "" !in ids
    ensures t in NormalizeRunning(running, ids) <==> t in ids && Listed(running, t)
  {
    hide Trim;
    TrimmedIsListed(running, t);
    TrimmedIsListed(Dedup(running), t);
    assert Listed(running, t) <==> Listed(Dedup(running), t) by {
      if Listed(running, t) {
        var i :| 0 <= i < |running| && Trim(running[i]) == t;
        assert running[i] in Dedup(running);
        var k :| 0 <= k < |Dedup(running)| && Dedup(running)[k] == running[i];
      }
      if Listed(Dedup(running), t) {
        var k :| 0 <= k < |Dedup(running)| && Trim(Dedup(running)[k]) == t;
        assert Dedup(running)[k] in running;
        var i :| 0 <= i < |running| && running[i] == Dedup(running)[k];
      }
    }
  }

  predicate ShowsActive(gs: seq<Group>, groupId: string, active: string) {
    exists i :: 0 <= i < |gs| && gs[i].id == groupId && active in Shown(gs[i])
  }

  lemma ResolvedShows(gs: seq<Group>, stored: string, active: string)
    requires active in Covered(gs)
    ensures var r := ResolveGroupId(gs, stored, active);
            if stored in GroupIds(gs) then r == stored else ShowsActive(gs, r, active)
  {
    hide Shown;
    var i := FirstShowing(gs, active);
    var k, t :| 0 <= k < |gs| && t in Shown(gs[k]) && t == active;
    assert i < |gs|;
  }

  lemma SyncedLists(gs: seq<Group>, groupId: string, active: string, valid: set<string>)
    requires Partition(gs, valid)
    ensures var r := SyncGroups(gs, groupId, active);
            ShownLists(r) == ShownLists(gs) && GroupIds(r) == GroupIds(gs)
            && forall g, t :: ShowsActive(r, g, t) <==> ShowsActive(gs, g, t)
  {
    SyncGroupsOk(gs, groupId, active, valid);
    hide Shown, SyncGroup, Partition, SyncGroups;
    var r := SyncGroups(gs, groupId, active);
    assert |r| == |gs|;
    assert forall i :: 0 <= i < |gs| ==> Shown(r[i]) == Shown(gs[i]) && r[i].id == gs[i].id;
  }

  lemma NormalizeIs(s: StoredState)
    ensures var r, ids := Normalize(s), NormalizeIds(s.terminalIds);
            var groups := NormalizeGroups(s.groups, ids);
            && r.terminalIds == ids && r.running == NormalizeRunning(s.running, ids)
            && r.activeTerminalId == (if s.activeTerminalId in ids then s.activeTerminalId else ids[0])
            && r.activeGroupId == ResolveGroupId(groups, s.activeGroupId, r.activeTerminalId)
            && r.groups == SyncGroups(groups, r.activeGroupId, r.activeTerminalId)
            && r.view == s.view.(height := if s.view.height > 0.0 then s.view.height else 280.0)
  {
    hide NormalizeIds, NormalizeGroups, NormalizeRunning, ResolveGroupId, SyncGroups, EnsureLabels, NormalizeTexts, KeepOpen;
  }

  /**
   * Which terminals a normalised state has, in which groups, and what is active: the stored terminal if it is open,
   * else the first; the stored group if it is there, else one that shows the active terminal.
   */
  lemma NormalizeKeeps(s: StoredState)
    ensures var r := Normalize(s);
            var claims := Claims(s.groups, ToSet(r.terminalIds));
            && r.terminalIds == NormalizeIds(s.terminalIds) && r.terminalIds != []
            && ShownLists(r.groups) == claims + Singles(r.terminalIds, Union(claims))
            && r.activeTerminalId == (if s.activeTerminalId in r.terminalIds then s.activeTerminalId else r.terminalIds[0])
            && (if s.activeGroupId in GroupIds(r.groups) then r.activeGroupId == s.activeGroupId
                else ShowsActive(r.groups, r.activeGroupId, r.activeTerminalId))
            && (forall t :: t in r.running <==> t in r.terminalIds && Listed(s.running, t))
            && r.view == s.view.(height := if s.view.height > 0.0 then s.view.height else 280.0)
  {
    var r := Normalize(s);
    NormalizeIdsOk(s.terminalIds);
    assert "" !in NormalizeIds(s.terminalIds);
    hide *;
    NormalizeIs(s);
    var ids := r.terminalIds;
    IdsParts(ids);
    var groups := NormalizeGroups(s.groups, ids);
    GroupsShowClaims(s.groups, ids);
    NormalizeGroupsPartition(s.groups, ids);
    CoveredIs(groups, ids);
    ResolvedShows(groups, s.activeGroupId, r.activeTerminalId);
    SyncedLists(groups, r.activeGroupId, r.activeTerminalId, ToSet(ids));
    forall t
      ensures t in r.running <==> t in r.terminalIds && Listed(s.running, t)
    {
      RunningIsListed(s.running, ids, t);
    }
  }

  lemma IdsParts(ids: seq<string>)
    requires IdsOk(ids)
    ensures ids != [] && NoDup(ids) && AllClean(ids) && ids[0] in ids
  {
    hide NoDup, AllClean;
  }

  lemma CoveredIs(gs: seq<Group>, ids: seq<string>)
    requires Partition(gs, ToSet(ids))
    ensures forall t :: t in Covered(gs) <==> t in ids
  {
    hide Covered, AllOk, Separate;
  }

  // ----- drawing what says nothing about sizes -----

  /** A weight that is missing or no use counts as one. */
  function Filled(count: nat, weights: seq<real>): seq<real> {
    seq(count, i requires 0 <= i < count => if i < |weights| && weights[i] > 0.0 then weights[i] else 1.0)
  }

  lemma MissingWeightIsOne(id: string, direction: Direction, children: seq<Node>, weights: seq<real>, frame: Rect)
    requires children != []
    ensures Panes(Split(id, direction, children, weights), frame) == Panes(Split(id, direction, children, Filled(|children|, weights)), frame)
  {
    hide Row, Extents;
    var n := |children|;
    assert SplitWeights(n, weights) == Filled(n, weights) == SplitWeights(n, Filled(n, weights));
    SameExtents(Split(id, direction, children, weights), Split(id, direction, children, Filled(n, weights)), frame);
  }

  lemma SameExtents(a: Node, b: Node, frame: Rect)
    requires a.Split? && b.Split? && a.children == b.children != [] && a.direction == b.direction
    requires SplitWeights(|a.children|, a.weights) == SplitWeights(|b.children|, b.weights)
    ensures Extents(a, frame) == Extents(b, frame)
  {
  }

  function Ones(n: nat): seq<real> {
    seq(n, _ => 1.0)
  }

  lemma {:induction false} SumOfOnes(n: nat)
    ensures Sum(Ones(n)) == n as real
  {
    if n > 0 {
      SumOfOnes(n - 1);
      assert Ones(n)[1..] == Ones(n - 1);
    }
  }

  /** The terminals of a list side by side, each in a pane of its own of the same width. */
  predicate SideBySide(panes: seq<Pane>, ids: seq<string>, at: real, width: real, frame: Rect) {
    && |panes| == |ids|
    && forall i :: 0 <= i < |ids| ==> panes[i] == Pane(NewLeaf(ids[i]), Rect(at + i as real * width, frame.y, width, frame.h))
  }

  lemma {:induction false} SinglesDrawn(ids: seq<string>, leaves: seq<Node>, lengths: seq<real>, at: real, width: real, frame: Rect)
    requires |leaves| == |ids| == |lengths| && forall i :: 0 <= i < |ids| ==> leaves[i] == NewLeaf(ids[i]) && lengths[i] == width
    ensures SideBySide(Row(Horizontal, leaves, lengths, at, frame.y, frame.h), ids, at, width, frame)
  {
    if ids == [] {
      RowNothing(Horizontal, at, frame.y, frame.h);
    } else {
      SinglesDrawn(ids[1..], leaves[1..], lengths[1..], at + width, width, frame);
      RowUncons(Horizontal, leaves, lengths, at, frame.y, frame.h);
      FirstBeside(ids, Row(Horizontal, leaves[1..], lengths[1..], at + width, frame.y, frame.h), at, width, frame);
    }
  }

  lemma FirstBeside(ids: seq<string>, rest: seq<Pane>, at: real, width: real, frame: Rect)
    requires ids != [] && SideBySide(rest, ids[1..], at + width, width, frame)
    ensures SideBySide([Pane(NewLeaf(ids[0]), Rect(at, frame.y, width, frame.h))] + rest, ids, at, width, frame)
  {
    hide NewLeaf;
    var panes := [Pane(NewLeaf(ids[0]), Rect(at, frame.y, width, frame.h))] + rest;
    forall i | 0 <= i < |ids|
      ensures panes[i] == Pane(NewLeaf(ids[i]), Rect(at + i as real * width, frame.y, width, frame.h))
    {
      if i > 0 {
        assert panes[i] == rest[i - 1];
        OneFurther(at, width, i);
      }
    }
  }

  lemma OneFurther(at: real, width: real, i: nat)
    requires i > 0
    ensures at + width + (i - 1) as real * width == at + i as real * width
  {
  }

  /** An old group, listed without a layout, is drawn in columns of one width, in the order of its list. */
  lemma LegacyDrawn(ids: seq<string>, frame: Rect)
    requires |ids| >= 2
    ensures LegacyLayout(ids).Split? && LegacyLayout(ids).id == "split-" + ids[0] && LegacyLayout(ids).direction == Horizontal
    ensures SideBySide(Panes(LegacyLayout(ids), frame), ids, frame.x, frame.w / |ids| as real, frame)
  {
    var layout, n := LegacyLayout(ids), |ids|;
    SumOfOnes(n);
    assert layout.weights == Ones(n) && SplitWeights(n, Ones(n)) == Ones(n);
    var unit := frame.w / Sum(Ones(n));
    var lengths := Extents(layout, frame);
    forall i | 0 <= i < n
      ensures lengths[i] == frame.w / n as real
    {
      assert Length(1.0, unit) == unit;
    }
    PanesAreRow(layout, frame);
    hide Panes, Row, Extents, SideBySide, LegacyLayout, NewLeaf;
    SinglesDrawn(ids, layout.children, lengths, frame.x, frame.w / n as real, frame);
  }
}
