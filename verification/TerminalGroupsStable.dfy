/** Groups that are already apart come through the repair with nothing but their layouts flattened. */
module TerminalGroupsStable {
  import opened Strings
  import opened Sequences
  import opened Wrappers
  import opened PaneTree
  import opened PaneNormal
  import opened TerminalGroups

  predicate TidyGroup(g: Group, valid: set<string>) {
    Clean(g.id) && Tidy(g.layout, valid) && g.activeTerminalId in Shown(g)
  }

  function Settle(g: Group, valid: set<string>): Group {
    g.(layout := Sanitize(g.layout, valid).GetOr(g.layout))
  }

  function SettleAll(gs: seq<Group>, valid: set<string>): (r: seq<Group>)
    ensures |r| == |gs| && forall i :: 0 <= i < |gs| ==> r[i] == Settle(gs[i], valid)
  {
    seq(|gs|, i requires 0 <= i < |gs| => Settle(gs[i], valid))
  }

  /** A normal tree is normal for the terminals it shows. */
  lemma {:induction false} NormalForOwn(node: Node, valid: set<string>, own: set<string>)
    requires Normal(node, valid) && ToSet(Terminals(node)) <= own
    ensures Normal(node, own)
    decreases node, 0
  {
    match node
    case Leaf(_, ids, _, _) =>
      NormalLeafFixed(node, valid);
      assert forall id <- ids :: id in ToSet(Terminals(node));
    case Split(_, _, children, _) => NormalAllForOwn(children, valid, own);
  }

  lemma {:induction false} NormalAllForOwn(nodes: seq<Node>, valid: set<string>, own: set<string>)
    requires forall c <- nodes :: Normal(c, valid)
    requires ToSet(AllTerminals(nodes)) <= own
    ensures forall c <- nodes :: Normal(c, own)
    decreases nodes, 0
  {
    if nodes != [] {
      assert ToSet(Terminals(nodes[0])) <= ToSet(AllTerminals(nodes));
      assert ToSet(AllTerminals(nodes[1..])) <= ToSet(AllTerminals(nodes));
      NormalForOwn(nodes[0], valid, own);
      NormalAllForOwn(nodes[1..], valid, own);
    }
  }

  lemma TrimShown(g: Group, valid: set<string>)
    requires TidyGroup(g, valid)
    ensures Trim(g.activeTerminalId) == g.activeTerminalId && Trim(g.id) == g.id
  {
    TidyTerminals(g.layout, valid);
    var k :| 0 <= k < |Shown(g)| && Shown(g)[k] == g.activeTerminalId;
    TrimIsTrimmed(g.activeTerminalId);
    TrimIsTrimmed(g.id);
  }

  lemma StoredTidyGroup(g: Group, valid: set<string>)
    requires TidyGroup(g, valid)
    ensures NormalizePaneGroup(Stored(g), valid) == Some(Settle(g, valid))
    ensures Shown(Settle(g, valid)) == Shown(g) != []
    ensures GroupOk(Settle(g, valid), valid)
  {
    SanitizeTidy(g.layout, valid);
    TrimShown(g, valid);
  }

  lemma SettledIsFixed(g: Group, valid: set<string>)
    requires GroupOk(g, valid)
    ensures TidyGroup(g, valid) && Settle(g, valid) == g
    ensures GroupOk(g, ToSet(Shown(g)))
    ensures NormalizePaneGroup(Stored(g), ToSet(Shown(g))) == Some(g)
  {
    NormalIsTidy(g.layout, valid);
    NormalFixed(g.layout, valid);
    NormalForOwn(g.layout, valid, ToSet(Shown(g)));
    NormalIsTidy(g.layout, ToSet(Shown(g)));
    NormalFixed(g.layout, ToSet(Shown(g)));
    StoredTidyGroup(g, ToSet(Shown(g)));
  }

  lemma AddTidyGroup(acc: Repair, g: Group, valid: set<string>)
    requires TidyGroup(g, valid) && g.id !in acc.used
    requires forall t <- Shown(g) :: t !in acc.placed
    ensures AddGroup(acc, Stored(g), valid)
         == Repair(acc.groups + [Settle(g, valid)], acc.placed + ToSet(Shown(g)), acc.used + {g.id})
  {
    hide NormalizePaneGroup, Normal, Terminals, Tidy, Sanitize;
    StoredTidyGroup(g, valid);
    var s := Settle(g, valid);
    SettledIsFixed(s, valid);
    TrimIsTrimmed(g.id);
    assert Restrict(Shown(s), ToSet(Shown(s)) - acc.placed) == Shown(s);
    assert s.(id := g.id) == s;
  }

  lemma SeparatePrefix(gs: seq<Group>)
    requires gs != [] && Separate(gs)
    ensures Separate(gs[..|gs| - 1])
    ensures var g := gs[|gs| - 1];
            g.id !in GroupIds(gs[..|gs| - 1]) && forall t <- Shown(g) :: t !in Covered(gs[..|gs| - 1])
  {
    hide Terminals;
    var front, g := gs[..|gs| - 1], gs[|gs| - 1];
    forall i | 0 <= i < |front|
      ensures front[i].id != g.id && forall t <- Shown(g) :: t !in Shown(front[i])
    {
      assert Apart(gs[i], gs[|gs| - 1]);
    }
  }

  lemma AddNoGroups(gs: seq<Group>, valid: set<string>)
    requires gs == []
    ensures AddGroups(StoredAll(gs), valid) == Repair(SettleAll(gs, valid), Covered(gs), GroupIds(gs))
  {
    assert Covered(gs) == {} && GroupIds(gs) == {};
  }

  lemma AddGroupsSnoc(gs: seq<Group>, valid: set<string>)
    requires gs != []
    ensures AddGroups(StoredAll(gs), valid) == AddGroup(AddGroups(StoredAll(gs[..|gs| - 1]), valid), Stored(gs[|gs| - 1]), valid)
  {
    hide AddGroup, Stored;
    assert StoredAll(gs)[..|gs| - 1] == StoredAll(gs[..|gs| - 1]);
  }

  lemma SettleAllSnoc(front: seq<Group>, g: Group, valid: set<string>)
    ensures SettleAll(front + [g], valid) == SettleAll(front, valid) + [Settle(g, valid)]
  {
    hide Settle;
  }

  lemma {:induction false} AddTidyGroups(gs: seq<Group>, valid: set<string>)
    requires Separate(gs) && forall i :: 0 <= i < |gs| ==> TidyGroup(gs[i], valid)
    ensures AddGroups(StoredAll(gs), valid) == Repair(SettleAll(gs, valid), Covered(gs), GroupIds(gs))
  {
    hide *;
    if gs == [] {
      AddNoGroups(gs, valid);
    } else {
      var front, g := gs[..|gs| - 1], gs[|gs| - 1];
      SeparatePrefix(gs);
      AddTidyGroups(front, valid);
      AddGroupsSnoc(gs, valid);
      AddTidyGroup(AddGroups(StoredAll(front), valid), g, valid);
      CoveredSnoc(front, g);
      assert gs == front + [g];
      SettleAllSnoc(front, g, valid);
    }
  }

  lemma {:induction false} NothingToFill(acc: Repair, ids: seq<string>)
    requires ToSet(ids) <= acc.placed
    ensures FillGroups(acc, ids) == acc
  {
    if ids != [] {
      assert ids[|ids| - 1] in ToSet(ids);
      assert ToSet(ids[..|ids| - 1]) <= ToSet(ids);
      NothingToFill(acc, ids[..|ids| - 1]);
    }
  }

  /** Groups that already divide the open terminals keep their ids, order and terminals; only their layouts are flattened. */
  lemma TidyGroupsSettle(gs: seq<Group>, ids: seq<string>)
    requires gs != [] && Separate(gs) && Covered(gs) == ToSet(ids)
    requires forall i :: 0 <= i < |gs| ==> TidyGroup(gs[i], ToSet(ids))
    ensures NormalizeGroups(StoredAll(gs), ids) == SettleAll(gs, ToSet(ids))
    ensures Partition(SettleAll(gs, ToSet(ids)), ToSet(ids))
  {
    hide AddGroup, Terminals, Tidy, Normal;
    var valid := ToSet(ids);
    var settled := SettleAll(gs, valid);
    AddTidyGroups(gs, valid);
    NothingToFill(Repair(settled, Covered(gs), GroupIds(gs)), ids);
    forall i | 0 <= i < |gs|
      ensures GroupOk(settled[i], valid) && Shown(settled[i]) == Shown(gs[i])
    {
      StoredTidyGroup(gs[i], valid);
    }
    forall i, j | 0 <= i < j < |gs|
      ensures Apart(settled[i], settled[j])
    {
      assert Apart(gs[i], gs[j]);
    }
  }

  /** A partition is a fixed point of the repair. */
  lemma PartitionFixed(gs: seq<Group>, ids: seq<string>)
    requires Partition(gs, ToSet(ids))
    ensures NormalizeGroups(StoredAll(gs), ids) == gs
  {
    var valid := ToSet(ids);
    forall i | 0 <= i < |gs|
      ensures TidyGroup(gs[i], valid) && Settle(gs[i], valid) == gs[i]
    {
      SettledIsFixed(gs[i], valid);
    }
    assert SettleAll(gs, valid) == gs;
    TidyGroupsSettle(gs, ids);
  }
}
