/** The tabs of one pane: which a stored pane keeps and shows, and which it shows once one is closed. */
module PaneTabs {
  import opened Strings
  import opened Sequences
  import opened Wrappers
  import opened PaneTree
  import opened PaneClose

  // ----- a stored pane -----

  /** Something listed reads as this terminal. */
  predicate Listed(ids: seq<string>, t: string) {
    exists i :: 0 <= i < |ids| && Trim(ids[i]) == t
  }

  /** Each open terminal that is listed, once, in the order of the list. */
  ghost predicate KeepsListed(kept: seq<string>, ids: seq<string>, valid: set<string>) {
    && NoDup(kept) && InOrder(kept, TrimAll(ids))
    && forall t :: t in kept <==> t != "" && t in valid && Listed(ids, t)
  }

  lemma TrimmedIsListed(ids: seq<string>, t: string)
    ensures t in TrimAll(ids) <==> Listed(ids, t)
  {
    hide Trim;
    if Listed(ids, t) {
      var i :| 0 <= i < |ids| && Trim(ids[i]) == t;
      assert TrimAll(ids)[i] == t;
    }
  }

  /** Cleaning a list keeps what it lists, once and in order, but for blanks. */
  lemma CleanIsListed(ids: seq<string>)
    ensures var kept := CleanIds(ids);
            NoDup(kept) && InOrder(kept, TrimAll(ids)) && forall t :: t in kept <==> t != "" && Listed(ids, t)
  {
    var trimmed := TrimAll(ids);
    CleanIdsAreClean(ids);
    hide TrimAll, InOrder, NoDup, Listed;
    DedupInOrder(trimmed);
    WithoutInOrder(Dedup(trimmed), "");
    InOrderTrans(CleanIds(ids), Dedup(trimmed), trimmed);
    forall t
      ensures t in trimmed <==> Listed(ids, t)
    {
      TrimmedIsListed(ids, t);
    }
  }

  lemma KeptIsListed(ids: seq<string>, valid: set<string>)
    ensures KeepsListed(Restrict(CleanIds(ids), valid), ids, valid)
  {
    hide CleanIds, TrimAll, InOrder, NoDup, Listed;
    CleanIsListed(ids);
    RestrictInOrder(CleanIds(ids), valid);
    InOrderTrans(Restrict(CleanIds(ids), valid), CleanIds(ids), TrimAll(ids));
    RestrictNoDup(CleanIds(ids), valid);
  }

  /**
   * A stored pane keeps its open terminals in order, or the single one of an old record when it lists
   * none; it shows the tab it showed if that is kept, else its first.
   */
  lemma StoredPane(leaf: Node, valid: set<string>)
    requires leaf.Leaf?
    ensures var r := SanitizeLeaf(leaf, valid);
            var ids := if exists t <- valid :: t != "" && Listed(leaf.terminalIds, t) then leaf.terminalIds else [leaf.terminalId];
            && (r.None? <==> forall t <- valid :: t != "" ==> !Listed(ids, t))
            && (r.Some? ==>
                  && r.value.Leaf? && KeepsListed(r.value.terminalIds, ids, valid) && r.value.terminalIds != []
                  && (Trim(leaf.activeTerminalId) in r.value.terminalIds ==> r.value.activeTerminalId == Trim(leaf.activeTerminalId))
                  && (Trim(leaf.activeTerminalId) !in r.value.terminalIds ==> r.value.activeTerminalId == r.value.terminalIds[0])
                  && r.value.paneId == if Trim(leaf.paneId) != "" then Trim(leaf.paneId) else "pane-" + r.value.activeTerminalId)
  {
    hide CleanIds, Trim, InOrder, Listed;
    KeptIsListed(leaf.terminalIds, valid);
    KeptIsListed([leaf.terminalId], valid);
    var first, second := Restrict(CleanIds(leaf.terminalIds), valid), Restrict(CleanIds([leaf.terminalId]), valid);
    assert first != [] ==> first[0] in first;
    assert second != [] ==> second[0] in second;
  }

  // ----- closing a tab -----

  /** The one that follows, or else the one before. */
  function Neighbour(before: seq<string>, after: seq<string>): string
    requires before + after != []
  {
    if after != [] then after[0] else before[|before| - 1]
  }

  /** A pane that loses a tab keeps the others in order; if that tab was visible, its neighbour is now. */
  lemma ClosedTab(leaf: Node, before: seq<string>, id: string, after: seq<string>)
    requires leaf.Leaf? && leaf.terminalIds == before + [id] + after && id !in before && id !in after
    ensures var r, rest := RemoveFromLeaf(leaf, id), before + after;
            && r.removed && (r.node.None? <==> rest == [])
            && (rest != [] ==>
                  r.node == Some(leaf.(terminalIds := rest,
                                       activeTerminalId := if leaf.activeTerminalId in rest then leaf.activeTerminalId
                                                           else Neighbour(before, after))))
  {
    var ids := leaf.terminalIds;
    assert ids[|before|] == id;
    assert ids[..|before|] == before;
    IndexOfIs(ids, |before|);
    WithoutConcat(before + [id], after, id);
    WithoutConcat(before, [id], id);
    assert [id][1..] == [];
    assert Without([id], id) == [];
    assert before + [] == before;
  }
}
