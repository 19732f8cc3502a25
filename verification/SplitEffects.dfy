/** What each step of the split view store does to the panes shown, and when it takes a view away. */
module SplitEffects {
  import opened Wrappers
  import opened Sequences
  import opened SplitTree
  import opened SplitViews

  function Threads(root: Pane): seq<Option<Id>> {
    var leaves := Leaves(root);
    seq(|leaves|, i requires 0 <= i < |leaves| => leaves[i].thread)
  }

  /** Every view but the one named is as it was. */
  ghost predicate OthersStay(s: State, r: State, view: Id) {
    forall k :: k != view ==> (k in r.views <==> k in s.views) && (k in s.views ==> r.views[k] == s.views[k])
  }

  /** A thread some view could be anchored at: shown in the tree, and not the source of another view. */
  predicate Anchorable(root: Pane, view: Id, index: map<Id, Id>) {
    exists leaf <- Leaves(root) :: leaf.thread.Some? && FreeFor(leaf.thread.value, view, index)
  }

  /** The next source is the thread of the first leaf that could anchor the view. */
  lemma NextSourceIff(root: Pane, view: Id, index: map<Id, Id>)
    ensures var next := NextSource(root, view, index);
            (next.Some? <==> Anchorable(root, view, index)) && (next.Some? ==> FirstAnchors(Leaves(root), view, index, next))
    ensures Anchorable(root, view, index) ==> HasThread(root)
  {
    hide Leaves, FirstAnchors;
    FirstFreeIff(Leaves(root), view, index);
  }

  predicate FirstAnchor(leaves: seq<Pane>, k: nat, view: Id, index: map<Id, Id>, next: Option<Id>) {
    k < |leaves| && (forall leaf <- leaves :: leaf.Leaf?)
    && leaves[k].thread == next && next.Some? && FreeFor(next.value, view, index)
    && forall j :: 0 <= j < k ==> leaves[j].thread.Some? ==> !FreeFor(leaves[j].thread.value, view, index)
  }

  ghost predicate FirstAnchors(leaves: seq<Pane>, view: Id, index: map<Id, Id>, next: Option<Id>) {
    exists k: nat :: FirstAnchor(leaves, k, view, index, next)
  }

  lemma {:induction false} FirstFreeIff(leaves: seq<Pane>, view: Id, index: map<Id, Id>)
    requires forall leaf <- leaves :: leaf.Leaf?
    ensures var next := FirstFree(leaves, view, index);
            && (next.Some? <==> exists leaf <- leaves :: leaf.thread.Some? && FreeFor(leaf.thread.value, view, index))
            && (next.Some? ==> FirstAnchors(leaves, view, index, next))
  {
    if leaves != [] {
      var rest := leaves[1..];
      FirstFreeIff(rest, view, index);
      assert leaves == [leaves[0]] + rest;
      if leaves[0].thread.Some? && FreeFor(leaves[0].thread.value, view, index) {
        assert FirstAnchor(leaves, 0, view, index, leaves[0].thread);
      } else if k: nat :| FirstAnchor(rest, k, view, index, FirstFree(rest, view, index)) {
        assert forall j :: 0 <= j < k + 1 ==> leaves[j] == if j == 0 then leaves[0] else rest[j - 1];
        assert FirstAnchor(leaves, k + 1, view, index, FirstFree(rest, view, index));
      }
    }
  }

  // ----- opening -----

  /** A source that is not indexed gets a view of itself and an empty pane, the empty one focused. */
  lemma FromThreadShows(s: State, source: Id, project: Id, ids: FreshIds)
    requires Consistent(s) && NewIds(s, ids)
    ensures var r := CreateFromThread(s, source, project, ids);
            && source in r.index && r.index[source] in r.views
            && (source in s.index ==> r == s)
            && (source !in s.index ==>
                  && OthersStay(s, r, r.index[source])
                  && var v := r.views[r.index[source]];
                     && Threads(v.root) == [Some(source), None] && Leaves(v.root)[1].id == v.focused
                     && v.source == source && v.project == project
                     && v.root.Split? && v.root.axis == Across && v.root.ratio == 0.5)
  {
    TwoLeaves(ThreadView(source, project, ids).root);
  }

  lemma TwoLeaves(root: Pane)
    requires root.Split? && root.first.Leaf? && root.second.Leaf?
    ensures Leaves(root) == [root.first, root.second] && Threads(root) == [root.first.thread, root.second.thread]
  {
  }

  /** A drop beside a source gives the source's view these two panes, the dropped one on the named side and focused. */
  lemma FromDropShows(s: State, source: Id, project: Id, dropped: Id, axis: Axis, side: Side, ids: FreshIds)
    requires Consistent(s) && NewIds(s, ids)
    ensures var r := CreateFromDrop(s, source, project, dropped, axis, side, ids);
            && source in r.index && r.index[source] in r.views && OthersStay(s, r, r.index[source])
            && (source in s.index ==> r.index[source] == s.index[source])
            && var v := r.views[r.index[source]];
               && Threads(v.root) == (if side == First then [Some(dropped), Some(source)] else [Some(source), Some(dropped)])
               && v.root.Split? && v.root.axis == axis && Leaves(v.root)[if side == First then 0 else 1].id == v.focused
               && v.source == source && v.project == project && v.root.ratio == 0.5
  {
    TwoLeaves(DropView(ids.view, source, project, dropped, axis, side, ids).root);
  }

  // ----- changing one view -----

  lemma DropIs(s: State, view: Id, pane: Id, axis: Axis, side: Side, thread: Id, ids: FreshIds)
    requires CanDrop(s, view, pane, axis, thread)
    ensures view in s.views && FindLeaf(s.views[view].root, pane).Some?
    ensures var r, root := DropOnPane(s, view, pane, axis, side, thread, ids), s.views[view].root;
            && OthersStay(s, r, view) && r.index == s.index && view in r.views
            && r.views[view] == s.views[view].(root := r.views[view].root, focused := ids.firstLeaf)
            && r.views[view].root == Replace(root, pane, Subdivision(FindLeaf(root, pane).value, axis, side, thread, ids.firstLeaf, ids.split))
  {
    hide FindPane, Replace, Subdivision, CanSubdivide, ShowsThread;
  }

  lemma ViewTree(v: View)
    requires ViewOk(v)
    ensures TreeOk(v.root, MAX_DEPTH)
  {
  }

  lemma FoundLeaf(root: Pane, pane: Id)
    requires FindLeaf(root, pane).Some?
    ensures FindPane(root, pane).Some? && FindPane(root, pane).value.Leaf?
  {
    hide FindPane;
  }

  /** A drop is allowed exactly on a pane of a live view, for a thread the view does not show, where the tree stays well formed. */
  lemma DropAllowedIff(s: State, view: Id, pane: Id, axis: Axis, side: Side, thread: Id, ids: FreshIds)
    requires Consistent(s) && Draws(s, Drop(view, pane, axis, side, thread, ids))
    ensures CanDrop(s, view, pane, axis, thread) <==>
            && view in s.views
            && var root := s.views[view].root;
               && FindLeaf(root, pane).Some? && (forall leaf <- Leaves(root) :: leaf.thread != Some(thread))
               && TreeOk(Replace(root, pane, Subdivision(FindLeaf(root, pane).value, axis, side, thread, ids.firstLeaf, ids.split)), 2)
  {
    hide FindPane, Leaves, Replace, TreeOk, FindDepth, FindParent, Ids, Subdivision;
    if view in s.views && FindLeaf(s.views[view].root, pane).Some? {
      Live(s, view);
      ViewTree(s.views[view]);
      SubdivideOkIff(s.views[view].root, pane, axis, side, thread, ids.firstLeaf, ids.split, MAX_DEPTH);
    }
  }

  /** A drop that is allowed puts the thread beside its target, on the named side, and nowhere else. */
  lemma DropShows(s: State, view: Id, pane: Id, axis: Axis, side: Side, thread: Id, ids: FreshIds)
    requires Consistent(s) && CanDrop(s, view, pane, axis, thread)
    ensures var r := DropOnPane(s, view, pane, axis, side, thread, ids);
            var target, added := FindLeaf(s.views[view].root, pane).value, Leaf(ids.firstLeaf, Some(thread), BlankPanel);
            && OthersStay(s, r, view) && r.index == s.index && view in r.views
            && r.views[view] == s.views[view].(root := r.views[view].root, focused := ids.firstLeaf)
            && Leaves(r.views[view].root)
               == Substitute(Leaves(s.views[view].root), pane, if side == First then [added, target] else [target, added])
  {
    hide DropOnPane, FindPane, Leaves, Replace, Substitute, Subdivision, CanDrop, Consistent, TreeOk, ViewOk, OthersStay;
    DropIs(s, view, pane, axis, side, thread, ids);
    var root := s.views[view].root;
    var target := FindLeaf(root, pane).value;
    Live(s, view);
    ViewTree(s.views[view]);
    FoundLeaf(root, pane);
    ReplaceInPlace(root, pane, Subdivision(target, axis, side, thread, ids.firstLeaf, ids.split), MAX_DEPTH);
    SubdivisionLeaves(target, axis, side, thread, ids.firstLeaf, ids.split);
  }

  lemma SubdivisionLeaves(target: Pane, axis: Axis, side: Side, thread: Id, newLeaf: Id, newSplit: Id)
    requires target.Leaf?
    ensures var added := Leaf(newLeaf, Some(thread), BlankPanel);
            Leaves(Subdivision(target, axis, side, thread, newLeaf, newSplit)) == if side == First then [added, target] else [target, added]
  {
  }

  /**
   * Showing another thread in a pane changes that pane alone. The view goes exactly when it loses its
   * source and shows no thread that is free to take over.
   */
  lemma SetThreadShows(s: State, view: Id, pane: Id, thread: Option<Id>)
    requires Consistent(s) && view in s.views && FindLeaf(s.views[view].root, pane).Some?
    requires FindLeaf(s.views[view].root, pane).value.thread != thread
    ensures var r, v := ReplacePaneThread(s, view, pane, thread), s.views[view];
            var leaf := FindLeaf(v.root, pane).value;
            var root := Replace(v.root, pane, leaf.(thread := thread));
            && OthersStay(s, r, view)
            && (view in r.views <==> leaf.thread != Some(v.source) || Anchorable(root, view, s.index))
            && (view in r.views ==> Leaves(r.views[view].root) == Substitute(Leaves(v.root), pane, [leaf.(thread := thread)])
                                    && r.views[view].focused == v.focused)
  {
    hide Replace, Substitute, TreeOk, FindPane, Leaves, NextSource, HasThread, ShowsThread, ShowsLeaf, Anchorable;
    var v := s.views[view];
    var leaf := FindLeaf(v.root, pane).value;
    var root := Replace(v.root, pane, leaf.(thread := thread));
    ReplaceInPlace(v.root, pane, leaf.(thread := thread), MAX_DEPTH);
    ReplacedLeaf(v, pane, leaf.(thread := thread));
    NextSourceIff(root, view, s.index);
    OneLeaf(leaf.(thread := thread));
    if leaf.thread != Some(v.source) {
      ShownHasThread(root, v.source);
    }
  }

  lemma OneLeaf(leaf: Pane)
    requires leaf.Leaf?
    ensures Leaves(leaf) == [leaf]
  {
  }

  lemma ShownHasThread(root: Pane, thread: Id)
    requires ShowsThread(root, thread)
    ensures HasThread(root)
  {
  }

  /** Focus moves exactly when the pane is a leaf of the view, and moves nothing else. */
  lemma FocusShows(s: State, view: Id, pane: Id)
    requires Consistent(s) && view in s.views
    ensures var r, v := SetFocused(s, view, pane), s.views[view];
            && OthersStay(s, r, view) && r.index == s.index && view in r.views
            && r.views[view] == v.(focused := if ShowsLeaf(v.root, pane) then pane else v.focused)
  {
    LeafFound(s.views[view], pane);
    FindLeafIs(s.views[view].root, pane, MAX_DEPTH);
  }

  lemma {:induction false} ReplaceFinds(root: Pane, id: Id, replacement: Pane)
    requires id in Ids(root) && replacement.id == id
    ensures FindPane(Replace(root, id, replacement), id) == Some(replacement)
  {
    if root.id != id {
      if id in Ids(root.first) {
        ReplaceFinds(root.first, id, replacement);
      } else {
        ReplaceAbsent(root.first, id, replacement);
        FoundInside(root.first, id);
        ReplaceFinds(root.second, id, replacement);
      }
    }
  }

  /** A split takes the clamped ratio; every pane stays. */
  lemma RatioShows(s: State, view: Id, node: Id, ratio: Option<real>)
    requires Consistent(s) && view in s.views
    requires FindPane(s.views[view].root, node).Some? && FindPane(s.views[view].root, node).value.Split?
    ensures var r, v := SetRatio(s, view, node, ratio), s.views[view];
            && OthersStay(s, r, view) && r.index == s.index && view in r.views
            && FindPane(r.views[view].root, node) == Some(FindPane(v.root, node).value.(ratio := ClampRatio(ratio)))
            && Leaves(r.views[view].root) == Leaves(v.root) && r.views[view] == v.(root := r.views[view].root)
  {
    hide Replace, Leaves, TreeOk, Ids, ClampRatio, FindPane, ShowsLeaf, ShowsThread;
    var root := s.views[view].root;
    var next := FindPane(root, node).value.(ratio := ClampRatio(ratio));
    FoundInside(root, node);
    ReplaceFinds(root, node, next);
    ReplaceKeepsOutline(root, node, next, MAX_DEPTH);
  }

  /** A pane takes the panel state; no other pane changes. */
  lemma PanelShows(s: State, view: Id, pane: Id, panel: Panel)
    requires Consistent(s) && view in s.views && FindLeaf(s.views[view].root, pane).Some?
    ensures var r, v := SetPanel(s, view, pane, panel), s.views[view];
            && OthersStay(s, r, view) && r.index == s.index && view in r.views
            && Leaves(r.views[view].root) == Substitute(Leaves(v.root), pane, [FindLeaf(v.root, pane).value.(panel := panel)])
            && r.views[view] == v.(root := r.views[view].root)
  {
    hide Replace, Leaves, TreeOk, Substitute, FindPane, ShowsLeaf, ShowsThread;
    var leaf := FindLeaf(s.views[view].root, pane).value;
    ReplaceInPlace(s.views[view].root, pane, leaf.(panel := panel), MAX_DEPTH);
    OneLeaf(leaf.(panel := panel));
  }

  /**
   * Closing a pane leaves precisely the other panes of its view, in order. The view goes exactly when
   * it loses its source and the panes left show no thread that is free to take over.
   */
  lemma CloseShows(s: State, view: Id, pane: Id)
    requires Consistent(s) && view in s.views && FindLeaf(s.views[view].root, pane).Some?
    ensures var r, v := RemovePaneFromView(s, view, pane), s.views[view];
            var rest := RemovePane(v.root, pane).root;
            var loses := FindLeaf(v.root, pane).value.thread == Some(v.source);
            && OthersStay(s, r, view)
            && (view in r.views <==> !loses || (rest.Some? && Anchorable(rest.value, view, s.index - {v.source})))
            && (view in r.views ==>
                  && Leaves(r.views[view].root) == Remaining(Leaves(v.root), {pane})
                  && (v.focused != pane ==> r.views[view].focused == v.focused)
                  && (v.focused == pane ==> r.views[view].focused == Leaves(r.views[view].root)[0].id))
  {
    hide TreeOk, FindPane, FindLeaf, Leaves, RemovePane, Prune, Remaining, NextSource, HasThread, ShowsThread, ShowsLeaf, Anchorable, NoTwin;
    var v := s.views[view];
    var result := RemovePane(v.root, pane);
    ClosedView(v, pane);
    RemovePaneIsPrune(v.root, pane);
    PruneLeaves(v.root, {pane});
    assert result.removed[0] in result.removed;
    if result.root.Some? {
      NextSourceIff(result.root.value, view, s.index - {v.source});
      if ShowsThread(result.root.value, v.source) {
        ShownHasThread(result.root.value, v.source);
      }
      LeavesSome(result.root.value);
    }
  }

  lemma {:induction false} LeavesSome(root: Pane)
    ensures Leaves(root) != [] && FirstLeafId(root) == Leaves(root)[0].id
  {
    if root.Split? {
      LeavesSome(root.first);
    }
  }

  // ----- deleting a thread everywhere -----

  function Without(leaves: seq<Pane>, thread: Id): seq<Pane>
    requires forall leaf <- leaves :: leaf.Leaf?
  {
    if leaves == [] then []
    else (if leaves[0].thread == Some(thread) then [] else [leaves[0]]) + Without(leaves[1..], thread)
  }

  lemma {:induction false} RemainingIsWithout(leaves: seq<Pane>, gone: set<Id>, thread: Id)
    requires forall leaf <- leaves :: leaf.Leaf? && (leaf.id in gone <==> leaf.thread == Some(thread))
    ensures Remaining(leaves, gone) == Without(leaves, thread)
  {
    if leaves != [] {
      RemainingIsWithout(leaves[1..], gone, thread);
    }
  }

  /** What is left of a view when a thread goes: the other panes in order, or no view. */
  predicate Rid(before: View, after: View, thread: Id) {
    Leaves(after.root) == Without(Leaves(before.root), thread) && (!ShowsThread(before.root, thread) ==> after == before)
  }

  lemma DeleteOneShows(s: State, view: Id, thread: Id)
    requires Consistent(s) && view in s.views
    ensures var r := RemoveThreadFrom(s, view, thread);
            && OthersStay(s, r, view)
            && (view in r.views ==> Rid(s.views[view], r.views[view], thread))
            && (view !in r.views ==> s.views[view].source == thread)
  {
    hide TreeOk, FindPane, FindLeaf, Leaves, RemoveThread, Prune, Remaining, NextSource, HasThread, ShowsLeaf, NoTwin, Showing, Without,
         ShowsThread, FirstLeafId;
    var v := s.views[view];
    var result := RemoveThread(v.root, thread);
    ThreadlessView(v, thread);
    RemoveThreadIsPrune(v.root, thread, MAX_DEPTH);
    PruneLeaves(v.root, Showing(v.root, thread));
    ThreadLeaves(v.root, thread);
    RemainingIsWithout(Leaves(v.root), Showing(v.root, thread), thread);
    RemovedIff(v.root, thread, result.removed);
    if result.root.Some? && ShowsThread(result.root.value, v.source) {
      ShownHasThread(result.root.value, v.source);
    }
    if result.removed == [] {
      NothingGone(v.root, {});
      assert Showing(v.root, thread) == {};
    }
  }

  lemma RemovedIff(root: Pane, thread: Id, removed: seq<Id>)
    requires ToSet(removed) == Showing(root, thread)
    ensures removed == [] <==> !ShowsThread(root, thread)
  {
    ShowingIsInside(root, thread);
    if removed != [] {
      assert removed[0] in ToSet(removed);
    }
    if ShowsThread(root, thread) {
      var leaf :| leaf in Leaves(root) && leaf.thread == Some(thread);
      assert leaf.id in ToSet(removed);
    }
  }

  /** The views an order names are rid of the thread, or gone with it as their source; the others are as they were. */
  lemma {:induction false} DeleteShows(s: State, order: seq<Id>, thread: Id)
    requires Consistent(s) && NoDup(order) && forall k <- order :: k in s.views
    ensures var r := RemoveThreadFromAll(s, order, thread);
            && (forall k :: k in r.views ==> k in s.views)
            && (forall k :: k in s.views && k !in order ==> k in r.views && r.views[k] == s.views[k])
            && (forall k :: k in order && k in r.views ==> Rid(s.views[k], r.views[k], thread))
            && (forall k :: k in order && k !in r.views ==> s.views[k].source == thread)
  {
    hide Consistent, Rid, RemoveThreadFrom;
    if order != [] {
      var front, last := order[..|order| - 1], order[|order| - 1];
      assert order == front + [last] && last !in front;
      DeleteShows(s, front, thread);
      DeleteKeeps(s, front, thread);
      DeleteOneShows(RemoveThreadFromAll(s, front, thread), last, thread);
    }
  }

  /** After a thread is deleted no view shows it, and each view left shows its other panes in their order. */
  lemma DeletedIsGone(s: State, order: seq<Id>, thread: Id)
    requires Consistent(s) && NoDup(order) && ToSet(order) == s.views.Keys
    ensures var r := RemoveThreadFromAll(s, order, thread);
            forall k <- r.views ::
              && k in s.views && !ShowsThread(r.views[k].root, thread)
              && Leaves(r.views[k].root) == Without(Leaves(s.views[k].root), thread)
  {
    assert forall k :: k in order <==> k in ToSet(order);
    DeleteShows(s, order, thread);
    hide Consistent, RemoveThreadFromAll;
    forall k <- RemoveThreadFromAll(s, order, thread).views
      ensures !ShowsThread(RemoveThreadFromAll(s, order, thread).views[k].root, thread)
    {
      WithoutLacks(Leaves(s.views[k].root), thread);
    }
  }

  lemma {:induction false} WithoutLacks(leaves: seq<Pane>, thread: Id)
    requires forall leaf <- leaves :: leaf.Leaf?
    ensures forall leaf <- Without(leaves, thread) :: leaf.Leaf? && leaf.thread != Some(thread)
  {
    if leaves != [] {
      WithoutLacks(leaves[1..], thread);
    }
  }
}
