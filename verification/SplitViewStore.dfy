/** The split view store as it runs: two maps, changed in place. */
module SplitViewStore {
  import opened Wrappers
  import opened Sequences
  import opened SplitTree
  import opened SplitViews

  class Store {
    var views: map<Id, View>
    var index: map<Id, Id>

    function Current(): State
      reads this
    {
      State(views, index)
    }

    constructor ()
      ensures Current() == Empty
    {
      views, index := map[], map[];
    }

    /** createFromThread: an indexed source keeps the view it has. */
    method OpenForThread(source: Id, project: Id, ids: FreshIds) returns (view: Id)
      modifies this
      ensures Current() == CreateFromThread(old(Current()), source, project, ids)
      ensures source in index && index[source] == view
    {
      if source in index {
        return index[source];
      }
      var root := Split(ids.split, Across, Leaf(ids.firstLeaf, Some(source), BlankPanel),
                        Leaf(ids.secondLeaf, None, BlankPanel), DEFAULT_RATIO);
      views := views[ids.view := View(ids.view, source, project, root, ids.secondLeaf)];
      index := index[source := ids.view];
      return ids.view;
    }

    /** createFromDrop: an indexed source has its view rebuilt under the id it had. */
    method OpenForDrop(source: Id, project: Id, dropped: Id, axis: Axis, side: Side, ids: FreshIds) returns (view: Id)
      modifies this
      ensures Current() == CreateFromDrop(old(Current()), source, project, dropped, axis, side, ids)
      ensures source in index && index[source] == view && view in views
    {
      view := ids.view;
      if source in index && index[source] in views {
        view := index[source];
      }
      var root := Subdivision(Leaf(ids.firstLeaf, Some(source), BlankPanel), axis, side, dropped, ids.secondLeaf, ids.split);
      views := views[view := View(view, source, project, root, ids.secondLeaf)];
      index := index[source := view];
    }

    method Discard(view: Id)
      modifies this
      ensures Current() == RemoveView(old(Current()), view)
    {
      if view in views {
        var source := views[view].source;
        views := views - {view};
        index := index - {source};
      }
    }

    method SetPaneThread(view: Id, pane: Id, thread: Option<Id>)
      modifies this
      ensures Current() == ReplacePaneThread(old(Current()), view, pane, thread)
    {
      if view !in views {
        return;
      }
      var v := views[view];
      var leaf := FindLeaf(v.root, pane);
      if leaf.None? || leaf.value.thread == thread {
        return;
      }
      var root := Replace(v.root, pane, leaf.value.(thread := thread));
      var next, shouldRemove := Some(v.source), !HasThread(root);
      if leaf.value.thread == Some(v.source) {
        next := NextSource(root, view, index);
        shouldRemove := shouldRemove || next.None?;
      }
      if !shouldRemove {
        views := views[view := v.(root := root, source := next.value)];
        if next.value == v.source {
          return;
        }
      } else {
        views := views - {view};
      }
      if v.source in index && index[v.source] == view {
        index := index - {v.source};
      }
      if !shouldRemove {
        index := index[next.value := view];
      }
    }

    method DropThread(view: Id, target: Id, axis: Axis, side: Side, thread: Id, ids: FreshIds) returns (ok: bool)
      modifies this
      ensures Current() == DropOnPane(old(Current()), view, target, axis, side, thread, ids)
      ensures ok <==> CanDrop(old(Current()), view, target, axis, thread)
    {
      if view !in views {
        return false;
      }
      var v := views[view];
      var leaf := FindLeaf(v.root, target);
      if leaf.None? || ShowsThread(v.root, thread) || !CanSubdivide(v.root, target, axis) {
        return false;
      }
      var split := Subdivision(leaf.value, axis, side, thread, ids.firstLeaf, ids.split);
      views := views[view := v.(root := Replace(v.root, target, split), focused := ids.firstLeaf)];
      return true;
    }

    method ClosePane(view: Id, pane: Id) returns (ok: bool)
      modifies this
      ensures Current() == RemovePaneFromView(old(Current()), view, pane)
      ensures ok <==> view in old(views) && FindLeaf(old(views)[view].root, pane).Some?
    {
      if view !in views {
        return false;
      }
      var v := views[view];
      var leaf := FindLeaf(v.root, pane);
      if leaf.None? {
        return false;
      }
      ok := true;
      var result := RemovePane(v.root, pane);
      if result.removed == [] {
        return;
      }
      var losesSource := leaf.value.thread == Some(v.source);
      if losesSource {
        index := index - {v.source};
      }
      if result.root.None? || !HasThread(result.root.value) {
        views := views - {view};
        index := index - {v.source};
        return;
      }
      var next := Some(v.source);
      if losesSource {
        next := NextSource(result.root.value, view, index);
      }
      if next.None? {
        views := views - {view};
        return;
      }
      if next.value != v.source {
        index := index[next.value := view];
      }
      var focused := if v.focused in result.removed then FirstLeafId(result.root.value) else v.focused;
      views := views[view := v.(source := next.value, root := result.root.value, focused := focused)];
    }

    method FocusPane(view: Id, pane: Id)
      modifies this
      ensures Current() == SetFocused(old(Current()), view, pane)
    {
      if view in views && views[view].focused != pane && FindLeaf(views[view].root, pane).Some? {
        views := views[view := views[view].(focused := pane)];
      }
    }

    method SetNodeRatio(view: Id, node: Id, ratio: Option<real>)
      modifies this
      ensures Current() == SetRatio(old(Current()), view, node, ratio)
    {
      if view in views {
        var v := views[view];
        var found := FindPane(v.root, node);
        if found.Some? && found.value.Split? {
          views := views[view := v.(root := Replace(v.root, node, found.value.(ratio := ClampRatio(ratio))))];
        }
      }
    }

    /** removeThreadFromSplitViews, over the views as they were when it started. */
    method DeleteThread(thread: Id, order: seq<Id>)
      requires NoDup(order) && ToSet(order) == views.Keys
      modifies this
      ensures Current() == RemoveThreadFromAll(old(Current()), order, thread)
    {
      var before := views;
      for i := 0 to |order|
        invariant Current() == RemoveThreadFromAll(old(Current()), order[..i], thread)
        invariant forall k :: i <= k < |order| ==> order[k] in views && order[k] in before && views[order[k]] == before[order[k]]
      {
        var view := order[i];
        var v := before[view];
        assert order[..i + 1][..i] == order[..i];
        var result := RemoveThread(v.root, thread);
        if result.removed == [] {
          continue;
        }
        if result.root.None? || !HasThread(result.root.value) {
          views := views - {view};
          index := index - {v.source};
          continue;
        }
        var next := Some(v.source);
        if v.source == thread {
          next := NextSource(result.root.value, view, index);
          index := index - {v.source};
        }
        if next.None? {
          views := views - {view};
          continue;
        }
        if next.value != v.source {
          index := index[next.value := view];
        }
        var focused := if v.focused in result.removed then FirstLeafId(result.root.value) else v.focused;
        views := views[view := v.(source := next.value, root := result.root.value, focused := focused)];
      }
      assert order[..|order|] == order;
    }
  }
}
